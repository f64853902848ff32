/**
 The journal as shared memory. One writer changes the mapped pages one byte at a time; readers look
 at the same bytes with no lock. The abstract value of the memory is one append-only log of frames.
 */
module JournalProtocol {
  import opened Bytes
  import opened JournalLayout

  type Mem = map<nat, PageBytes>

  /** The two ways the writer changes what others can see: a new zero-filled page file, or one byte. */
  datatype Event = Create(page: nat) | Put(page: nat, off: nat, b: byte)

  /** The shared pages with the writer's cursor and the latest time stamp given out. Page 0 stands for
      "no page yet". */
  datatype Sys = Sys(mem: Mem, page: nat, pos: nat, clock: int)

  const Initial := Sys(map[], 0, 0, 0)

  function ApplyMem(mem: Mem, ev: Event): Mem {
    match ev
    case Create(p) => mem[p := ZeroPage()]
    case Put(p, off, b) =>
      if p in mem && off < |mem[p]| then
        var pg: PageBytes := mem[p][off := b];
        mem[p := pg]
      else mem
  }

  // ---------------------------------------------------------------- the log held in the pages

  ghost predicate PagesOK(mem: Mem, k: nat, n: nat) {
    forall i: nat :: k <= i <= n ==> i in mem && Chain(mem[i], PAGE_INIT)
  }

  ghost function LogFrom(mem: Mem, k: nat, n: nat): seq<Raw>
    requires PagesOK(mem, k, n)
    decreases n + 1 - k
  {
    if k > n then [] else Frames(mem[k], PAGE_INIT) + LogFrom(mem, k + 1, n)
  }

  /** The frames on the pages before page `k`. */
  ghost function Earlier(mem: Mem, k: nat): seq<Raw>
    requires 1 <= k && PagesOK(mem, 1, k - 1)
  {
    LogFrom(mem, 1, k - 1)
  }

  lemma {:induction false} LogSame(mem: Mem, mem': Mem, k: nat, n: nat)
    requires PagesOK(mem, k, n) && PagesOK(mem', k, n)
    requires forall i: nat :: k <= i <= n ==> Frames(mem[i], PAGE_INIT) == Frames(mem'[i], PAGE_INIT)
    ensures LogFrom(mem, k, n) == LogFrom(mem', k, n)
    decreases n + 1 - k
  {
    hide Chain, Frames;
    if k <= n {
      LogSame(mem, mem', k + 1, n);
    }
  }

  lemma {:induction false} LogSnoc(mem: Mem, k: nat, n: nat)
    requires k <= n && PagesOK(mem, k, n)
    ensures n >= 1 ==> LogFrom(mem, k, n) == LogFrom(mem, k, n - 1) + Frames(mem[n], PAGE_INIT)
    decreases n - k
  {
    hide Chain, Frames;
    if k < n {
      LogSnoc(mem, k + 1, n);
    }
  }

  lemma {:induction false} LogSplit(mem: Mem, j: nat, k: nat, n: nat)
    requires 1 <= j <= k <= n + 1 && PagesOK(mem, j, n)
    ensures LogFrom(mem, j, n) == LogFrom(mem, j, k - 1) + LogFrom(mem, k, n)
    decreases k - j
  {
    hide Chain, Frames;
    if j < k {
      LogSplit(mem, j + 1, k, n);
    }
  }

  ghost predicate AllAtMost(log: seq<Raw>, t: int) {
    forall i :: 0 <= i < |log| ==> NanoOf(log[i]) <= t
  }

  ghost predicate AllAtLeast(log: seq<Raw>, t: int) {
    forall i :: 0 <= i < |log| ==> NanoOf(log[i]) >= t
  }

  ghost predicate Nondecreasing(log: seq<Raw>) {
    forall i, j :: 0 <= i <= j < |log| ==> NanoOf(log[i]) <= NanoOf(log[j])
  }

  // ---------------------------------------------------------------- what the writer may store

  /** The next page can take over: it is initialised, and the current page's header is filled in. */
  ghost predicate TurnReady(s: Sys) {
    && s.page in s.mem && |s.mem[s.page]| == PAGE_SIZE && Chain(s.mem[s.page], PAGE_INIT)
    && s.page + 1 in s.mem && |s.mem[s.page + 1]| == PAGE_SIZE && s.mem[s.page + 1][0] == PAGE_INITED
    && StartNano(s.mem[s.page + 1]) >= s.clock
    && Field(s.mem[s.page], H_FRAME_NUM, 4) == |Frames(s.mem[s.page], PAGE_INIT)|
    && Field(s.mem[s.page], H_LAST_POS, 4) == s.pos
  }

  /** The next page file has appeared and the current page is not closed yet. */
  ghost predicate InWindow(s: Sys) {
    1 <= s.page && s.page + 1 in s.mem
  }

  /** The next page file is there and its header is initialised: readers can load it. */
  ghost predicate NextInited(s: Sys) {
    s.page + 1 in s.mem && |s.mem[s.page + 1]| == PAGE_SIZE && s.mem[s.page + 1][0] != RAW
  }

  /** Stores that respect the order the journal relies on. Once the next page is initialised, its start time
      stands and no frame is published on the current page any more. */
  ghost predicate Legal(s: Sys, ev: Event) {
    match ev
    case Create(p) => p == s.page + 1 && p !in s.mem
    case Put(p, off, b) =>
      && p in s.mem && |s.mem[p]| == PAGE_SIZE && off < PAGE_SIZE && VersionStore(off, b)
      && if p == s.page + 1 then
           off < PAGE_INIT && (off == 0 ==> b == PAGE_INITED && StartNano(s.mem[p]) >= s.clock)
           && (NextInited(s) ==> off < H_START_NANO || off >= H_CLOSE_NANO)
         else
           && p == s.page && 1 <= p
           && (|| H_CLOSE_NANO <= off < PAGE_INIT
               || off > s.pos
               || (off == s.pos && b == WRITTEN && CommitReady(s.mem[p], off) && NanoAt(s.mem[p], off) >= s.clock && !NextInited(s))
               || (off == s.pos && b == PAGE_END && TurnReady(s)))
  }

  /** One store. Storing WRITTEN publishes the frame at the cursor; storing PAGE_END, or initialising
      the very first page, moves the cursor to the next page. */
  ghost function Apply(s: Sys, ev: Event): Sys
    requires Legal(s, ev)
  {
    var mem' := ApplyMem(s.mem, ev);
    match ev
    case Create(_) => s.(mem := mem')
    case Put(p, off, b) =>
      if p == s.page && off == s.pos && b == WRITTEN && off >= PAGE_INIT then
        Sys(mem', p, s.pos + LengthAt(s.mem[p], off), NanoAt(s.mem[p], off))
      else if p == s.page && off == s.pos && off >= PAGE_INIT then
        Sys(mem', p + 1, PAGE_INIT, StartNano(s.mem[p + 1]))
      else if p == s.page + 1 && s.page == 0 && off == 0 then
        Sys(mem', 1, PAGE_INIT, StartNano(s.mem[1]))
      else s.(mem := mem')
  }

  /** A page left behind: its end is marked and its header tells how many frames it holds, and where they end. */
  ghost predicate ClosedPage(pg: PageBytes) {
    && |pg| == PAGE_SIZE && Chain(pg, PAGE_INIT) && pg[ScanEnd(pg, PAGE_INIT)] == PAGE_END
    && Field(pg, H_FRAME_NUM, 4) == |Frames(pg, PAGE_INIT)|
    && Field(pg, H_LAST_POS, 4) == ScanEnd(pg, PAGE_INIT)
  }

  ghost predicate OpenPage(pg: PageBytes, pos: nat) {
    && |pg| == PAGE_SIZE && Chain(pg, PAGE_INIT) && pos == ScanEnd(pg, PAGE_INIT) && pg[pos] == RAW
  }

  ghost predicate Shape(s: Sys) {
    && (forall k :: k in s.mem ==> 1 <= k <= s.page + 1 && |s.mem[k]| == PAGE_SIZE)
    && PagesOK(s.mem, 1, s.page)
    && (forall k: nat :: 1 <= k <= s.page ==> s.mem[k][0] == PAGE_INITED)
    && (forall k: nat :: 1 <= k < s.page ==> ClosedPage(s.mem[k]))
    && (s.page >= 1 ==> OpenPage(s.mem[s.page], s.pos))
    && (s.page + 1 in s.mem ==> s.mem[s.page + 1][PAGE_INIT] == RAW)
    && (s.page == 0 && 1 in s.mem ==> s.mem[1][0] == RAW)
  }

  ghost function Log(s: Sys): seq<Raw>
    requires Shape(s)
  {
    LogFrom(s.mem, 1, s.page)
  }

  /** Time stamps: the log is sorted, and each page's start time separates it from the pages before. */
  ghost predicate Stamped(mem: Mem, n: nat, clock: int) {
    && PagesOK(mem, 1, n)
    && Nondecreasing(LogFrom(mem, 1, n)) && AllAtMost(LogFrom(mem, 1, n), clock)
    && forall k: nat :: 1 <= k <= n ==> StampedPage(mem, n, clock, k)
  }

  ghost predicate StampedPage(mem: Mem, n: nat, clock: int, k: nat)
    requires PagesOK(mem, 1, n) && 1 <= k <= n
  {
    && |mem[k]| == PAGE_SIZE && StartNano(mem[k]) <= clock
    && AllAtMost(Earlier(mem, k), StartNano(mem[k]))
    && AllAtLeast(LogFrom(mem, k, n), StartNano(mem[k]))
  }

  /** A page that readers can load before the writer has moved to it starts after everything in the log. */
  ghost predicate Poised(s: Sys) {
    1 <= s.page && NextInited(s) ==> StartNano(s.mem[s.page + 1]) >= s.clock
  }

  ghost predicate Versioned(mem: Mem) {
    forall k :: k in mem ==> |mem[k]| == PAGE_SIZE && VersionKept(mem[k])
  }

  ghost predicate Inv(s: Sys) {
    Shape(s) && Stamped(s.mem, s.page, s.clock) && Poised(s) && Versioned(s.mem)
  }

  /** Which store publishes a frame. */
  ghost predicate Commits(s: Sys, ev: Event) {
    ev.Put? && ev.page == s.page && ev.off == s.pos && ev.b == WRITTEN && s.pos >= PAGE_INIT
  }
}
