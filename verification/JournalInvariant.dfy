/** Every legal store keeps the journal's invariant, and only the publishing store changes the log. */
module JournalInvariant {
  import opened Bytes
  import opened JournalLayout
  import opened JournalProtocol

  // ---------------------------------------------------------------- stores that publish nothing

  /** How the shares of the log move when frames `more` are appended to it. */
  ghost predicate Grown(mem: Mem, n: nat, mem': Mem, n': nat, more: seq<Raw>) {
    && PagesOK(mem, 1, n) && PagesOK(mem', 1, n') && n <= n'
    && forall k: nat :: 1 <= k <= n ==>
      && Earlier(mem', k) == Earlier(mem, k)
      && LogFrom(mem', k, n') == LogFrom(mem, k, n) + more
  }

  ghost predicate SameStarts(mem: Mem, mem': Mem, n: nat)
    requires PagesOK(mem, 1, n) && PagesOK(mem', 1, n)
  {
    forall k: nat :: 1 <= k <= n ==> |mem[k]| == |mem'[k]| == PAGE_SIZE && StartNano(mem'[k]) == StartNano(mem[k])
  }

  lemma GrownPage(mem: Mem, n: nat, clock: int, mem': Mem, n': nat, clock': int, more: seq<Raw>, k: nat)
    requires 1 <= k <= n && PagesOK(mem, 1, n) && StampedPage(mem, n, clock, k)
    requires Grown(mem, n, mem', n', more) && SameStarts(mem, mem', n) && clock <= clock'
    requires AllAtLeast(more, clock)
    ensures StampedPage(mem', n', clock', k)
  {
    var old', new' := LogFrom(mem, k, n), LogFrom(mem', k, n');
    assert new' == old' + more;
    assert Earlier(mem', k) == Earlier(mem, k);
  }

  lemma GrownLog(log: seq<Raw>, clock: int, clock': int, more: seq<Raw>)
    requires Nondecreasing(log) && AllAtMost(log, clock) && clock <= clock'
    requires forall i :: 0 <= i < |more| ==> NanoOf(more[i]) == clock'
    ensures Nondecreasing(log + more) && AllAtMost(log + more, clock')
  {
  }

  /** Growing the log by frames stamped with the new clock keeps it sorted. */
  lemma GrownStamps(mem: Mem, n: nat, clock: int, mem': Mem, clock': int, more: seq<Raw>)
    requires Stamped(mem, n, clock) && Grown(mem, n, mem', n, more) && SameStarts(mem, mem', n) && clock <= clock'
    requires forall i :: 0 <= i < |more| ==> NanoOf(more[i]) == clock'
    requires LogFrom(mem', 1, n) == LogFrom(mem, 1, n) + more
    ensures Stamped(mem', n, clock')
  {
    GrownLog(LogFrom(mem, 1, n), clock, clock', more);
    forall k: nat | 1 <= k <= n ensures StampedPage(mem', n, clock', k) {
      GrownPage(mem, n, clock, mem', n, clock', more, k);
    }
  }

  /** Opening the next page at the new clock keeps the log sorted. */
  lemma TurnedStamps(mem: Mem, n: nat, clock: int, mem': Mem, clock': int)
    requires Stamped(mem, n, clock) && Grown(mem, n, mem', n + 1, []) && SameStarts(mem, mem', n) && clock <= clock'
    requires |mem'[n + 1]| == PAGE_SIZE && StartNano(mem'[n + 1]) == clock'
    requires LogFrom(mem', 1, n + 1) == Earlier(mem', n + 1) == LogFrom(mem, 1, n)
    requires LogFrom(mem', n + 1, n + 1) == []
    ensures Stamped(mem', n + 1, clock')
  {
    var n' := n + 1;
    forall k: nat | 1 <= k <= n' ensures StampedPage(mem', n', clock', k) {
      if k <= n {
        GrownPage(mem, n, clock, mem', n', clock', [], k);
      }
    }
  }

  /** The two memories hold the same frames under the same page start times. */
  ghost predicate Alike(mem: Mem, mem': Mem, n: nat) {
    && PagesOK(mem, 1, n) && PagesOK(mem', 1, n)
    && forall k: nat :: 1 <= k <= n ==>
         && |mem[k]| == |mem'[k]| == PAGE_SIZE
         && Frames(mem[k], PAGE_INIT) == Frames(mem'[k], PAGE_INIT)
         && StartNano(mem[k]) == StartNano(mem'[k])
  }

  lemma AlikeGrown(mem: Mem, mem': Mem, n: nat)
    requires Alike(mem, mem', n)
    ensures Grown(mem, n, mem', n, [])
    ensures LogFrom(mem', 1, n) == LogFrom(mem, 1, n)
  {
    LogSame(mem, mem', 1, n);
    forall k: nat | 1 <= k <= n
      ensures Earlier(mem', k) == Earlier(mem, k)
      ensures LogFrom(mem', k, n) == LogFrom(mem, k, n) + []
    {
      LogSame(mem, mem', 1, k - 1);
      LogSame(mem, mem', k, n);
    }
  }

  lemma AlikeStamped(s: Sys, s': Sys)
    requires Inv(s) && Shape(s') && s'.page == s.page && s'.clock == s.clock && Alike(s.mem, s'.mem, s.page)
    requires Poised(s') && Versioned(s'.mem)
    ensures Inv(s') && Log(s') == Log(s)
  {
    AlikeGrown(s.mem, s'.mem, s.page);
    GrownStamps(s.mem, s.page, s.clock, s'.mem, s.clock, []);
  }

  /** Version bytes and the start time of the next page. */
  lemma HeadersKept(s: Sys, ev: Event)
    requires Inv(s) && Legal(s, ev) && Apply(s, ev).page == s.page && Apply(s, ev).clock == s.clock
    ensures Poised(Apply(s, ev)) && Versioned(Apply(s, ev).mem)
  {
    hide Stamped, Chain, PagesOK, ClosedPage, OpenPage, TurnReady, CommitReady, NanoAt, LengthAt, Frames, ScanEnd, Signed, LeVal;
    var s' := Apply(s, ev);
    if s.page + 1 in s.mem {
      var pg, pg' := s.mem[s.page + 1], s'.mem[s.page + 1];
      assert NextInited(s) ==> pg'[H_START_NANO..H_START_NANO + 8] == pg[H_START_NANO..H_START_NANO + 8];
      assert ev.Put? && ev.page == s.page + 1 && ev.off == 0 ==> pg'[H_START_NANO..H_START_NANO + 8] == pg[H_START_NANO..H_START_NANO + 8];
    }
  }

  lemma CreateKeeps(s: Sys, p: nat)
    requires Inv(s) && Legal(s, Create(p))
    ensures Inv(Apply(s, Create(p))) && Log(Apply(s, Create(p))) == Log(s)
  {
    hide Poised, Versioned;
    HeadersKept(s, Create(p));
    AlikeStamped(s, Apply(s, Create(p)));
  }

  /** Bytes of the next page's header, before that page is in use. */
  lemma PrepareKeeps(s: Sys, off: nat, b: byte)
    requires Inv(s) && Legal(s, Put(s.page + 1, off, b)) && !(s.page == 0 && off == 0)
    ensures Inv(Apply(s, Put(s.page + 1, off, b))) && Log(Apply(s, Put(s.page + 1, off, b))) == Log(s)
  {
    hide Poised, Versioned, Stamped;
    HeadersKept(s, Put(s.page + 1, off, b));
    AlikeStamped(s, Apply(s, Put(s.page + 1, off, b)));
  }

  /** Bytes of the current page beside the cursor's status byte. */
  lemma BodyKeeps(s: Sys, off: nat, b: byte)
    requires Inv(s) && 1 <= s.page && off < PAGE_SIZE && (H_CLOSE_NANO <= off < PAGE_INIT || off > s.pos) && VersionStore(off, b)
    ensures Legal(s, Put(s.page, off, b))
    ensures Inv(Apply(s, Put(s.page, off, b))) && Log(Apply(s, Put(s.page, off, b))) == Log(s)
  {
    hide Poised, Versioned, Stamped;
    var pg := s.mem[s.page];
    StoreElsewhere(pg, PAGE_INIT, off, b);
    assert pg[off := b][H_START_NANO..H_START_NANO + 8] == pg[H_START_NANO..H_START_NANO + 8];
    HeadersKept(s, Put(s.page, off, b));
    AlikeStamped(s, Apply(s, Put(s.page, off, b)));
  }

  // ---------------------------------------------------------------- the publishing store

  /** Replacing the last page changes only that page's share of the log. */
  lemma LogReplaceLast(mem: Mem, n: nat, pg: PageBytes, k: nat)
    requires 1 <= k <= n && PagesOK(mem, 1, n) && Chain(pg, PAGE_INIT)
    ensures PagesOK(mem[n := pg], 1, n)
    ensures Earlier(mem[n := pg], k) == Earlier(mem, k)
    ensures LogFrom(mem[n := pg], k, n) == LogFrom(mem, k, n - 1) + Frames(pg, PAGE_INIT)
    ensures LogFrom(mem, k, n) == LogFrom(mem, k, n - 1) + Frames(mem[n], PAGE_INIT)
  {
    hide Chain, Frames;
    LogSame(mem, mem[n := pg], 1, k - 1);
    LogSame(mem, mem[n := pg], k, n - 1);
    LogSnoc(mem, k, n);
    LogSnoc(mem[n := pg], k, n);
  }

  lemma CommitPage(pg: PageBytes, pos: nat)
    requires OpenPage(pg, pos) && CommitReady(pg, pos)
    ensures OpenPage(pg[pos := WRITTEN], pos + LengthAt(pg, pos))
    ensures Frames(pg[pos := WRITTEN], PAGE_INIT) == Frames(pg, PAGE_INIT) + [pg[pos + 1..pos + LengthAt(pg, pos)]]
    ensures StartNano(pg[pos := WRITTEN]) == StartNano(pg) && pg[pos := WRITTEN][0] == pg[0]
  {
    StoreWritten(pg, PAGE_INIT, pos);
    assert pg[pos := WRITTEN][H_START_NANO..H_START_NANO + 8] == pg[H_START_NANO..H_START_NANO + 8];
  }

  /** The state after the last page has been replaced by `pg` with cursor `pos`. */
  ghost function Replaced(s: Sys, pg: PageBytes, pos: nat, clock: int): Sys {
    Sys(s.mem[s.page := pg], s.page, pos, clock)
  }

  lemma ReplacedShape(s: Sys, pg: PageBytes, pos: nat, clock: int)
    requires Shape(s) && 1 <= s.page && OpenPage(pg, pos) && pg[0] == PAGE_INITED
    ensures Shape(Replaced(s, pg, pos, clock))
  {
  }

  lemma ReplacedGrown(mem: Mem, n: nat, pg: PageBytes, raw: Raw)
    requires 1 <= n && PagesOK(mem, 1, n) && Chain(pg, PAGE_INIT)
    requires Frames(pg, PAGE_INIT) == Frames(mem[n], PAGE_INIT) + [raw]
    ensures Grown(mem, n, mem[n := pg], n, [raw])
  {
    LogReplaceLast(mem, n, pg, n);
    forall k: nat | 1 <= k <= n
      ensures Earlier(mem[n := pg], k) == Earlier(mem, k)
      ensures LogFrom(mem[n := pg], k, n) == LogFrom(mem, k, n) + [raw]
    {
      LogReplaceLast(mem, n, pg, k);
    }
  }

  lemma NanoOfRaw(pg: PageBytes, pos: nat, end: nat)
    requires pos + BASIC_HEADER <= end <= |pg|
    ensures NanoOf(pg[pos + 1..end]) == NanoAt(pg, pos)
  {
    assert pg[pos + 1..end][F_NANO - 1..F_NANO + 7] == pg[pos + F_NANO..pos + F_NANO + 8];
  }

  lemma CommitKeeps(s: Sys, ev: Event)
    requires Inv(s) && Legal(s, ev) && Commits(s, ev)
    ensures Inv(Apply(s, ev))
    ensures Log(Apply(s, ev)) == Log(s) + [s.mem[s.page][s.pos + 1..Apply(s, ev).pos]]
  {
    hide Chain, Frames, ScanEnd, StampedPage, ClosedPage;
    var pg := s.mem[s.page];
    var pos' := s.pos + LengthAt(pg, s.pos);
    CommitPage(pg, s.pos);
    NanoOfRaw(pg, s.pos, pos');
    ReplacedShape(s, pg[s.pos := WRITTEN], pos', NanoAt(pg, s.pos));
    ReplacedGrown(s.mem, s.page, pg[s.pos := WRITTEN], pg[s.pos + 1..pos']);
    var s' := Apply(s, ev);
    GrownStamps(s.mem, s.page, s.clock, s'.mem, s'.clock, [pg[s.pos + 1..pos']]);
  }

  // ---------------------------------------------------------------- stores that turn the page

  lemma {:induction false} EmptyFrom(pg: PageBytes)
    requires |pg| == PAGE_SIZE && pg[PAGE_INIT] == RAW
    ensures Chain(pg, PAGE_INIT) && Frames(pg, PAGE_INIT) == [] && OpenPage(pg, PAGE_INIT)
  {
  }

  lemma TurnPage(s: Sys)
    requires Inv(s) && 1 <= s.page && TurnReady(s)
    ensures ClosedPage(s.mem[s.page][s.pos := PAGE_END])
    ensures Frames(s.mem[s.page][s.pos := PAGE_END], PAGE_INIT) == Frames(s.mem[s.page], PAGE_INIT)
    ensures StartNano(s.mem[s.page][s.pos := PAGE_END]) == StartNano(s.mem[s.page])
  {
    var pg := s.mem[s.page];
    StoreClosed(pg, PAGE_INIT, s.pos, PAGE_END);
    var pg' := pg[s.pos := PAGE_END];
    assert pg'[H_START_NANO..H_START_NANO + 8] == pg[H_START_NANO..H_START_NANO + 8];
    assert pg'[H_FRAME_NUM..H_FRAME_NUM + 4] == pg[H_FRAME_NUM..H_FRAME_NUM + 4];
    assert pg'[H_LAST_POS..H_LAST_POS + 4] == pg[H_LAST_POS..H_LAST_POS + 4];
  }

  /** The state after the last page has been closed as `pg` and the next one opened. */
  ghost function Turned(s: Sys, pg: PageBytes): Sys
    requires s.page + 1 in s.mem && |s.mem[s.page + 1]| == PAGE_SIZE
  {
    Sys(s.mem[s.page := pg], s.page + 1, PAGE_INIT, StartNano(s.mem[s.page + 1]))
  }

  lemma TurnedShape(s: Sys, pg: PageBytes)
    requires Shape(s) && 1 <= s.page && ClosedPage(pg) && pg[0] == PAGE_INITED
    requires s.page + 1 in s.mem && s.mem[s.page + 1][0] == PAGE_INITED
    ensures Shape(Turned(s, pg)) && Frames(s.mem[s.page + 1], PAGE_INIT) == []
  {
    EmptyFrom(s.mem[s.page + 1]);
  }

  lemma TurnedGrown(mem: Mem, n: nat, pg: PageBytes)
    requires 1 <= n && PagesOK(mem, 1, n + 1) && Chain(pg, PAGE_INIT)
    requires Frames(pg, PAGE_INIT) == Frames(mem[n], PAGE_INIT) && Frames(mem[n + 1], PAGE_INIT) == []
    ensures Grown(mem, n, mem[n := pg], n + 1, [])
    ensures LogFrom(mem[n := pg], 1, n) == LogFrom(mem, 1, n)
    ensures LogFrom(mem[n := pg], n + 1, n + 1) == []
  {
    var mem' := mem[n := pg];
    LogReplaceLast(mem, n, pg, n);
    forall k: nat | 1 <= k <= n
      ensures Earlier(mem', k) == Earlier(mem, k)
      ensures LogFrom(mem', k, n + 1) == LogFrom(mem, k, n) == LogFrom(mem', k, n)
    {
      LogReplaceLast(mem, n, pg, k);
      LogSnoc(mem', k, n + 1);
    }
    assert LogFrom(mem', n + 1, n + 1) == [] + LogFrom(mem', n + 2, n + 1) == [];
  }

  lemma TurnKeeps(s: Sys, ev: Event)
    requires Inv(s) && Legal(s, ev) && ev.Put? && 1 <= s.page == ev.page && ev.off == s.pos && ev.b == PAGE_END
    ensures Inv(Apply(s, ev)) && Log(Apply(s, ev)) == Log(s)
  {
    hide Chain, Frames, ScanEnd, StampedPage, ClosedPage;
    var pg: PageBytes := s.mem[s.page][s.pos := PAGE_END];
    TurnPage(s);
    TurnedShape(s, pg);
    TurnedGrown(s.mem, s.page, pg);
    TurnedStamps(s.mem, s.page, s.clock, s.mem[s.page := pg], StartNano(s.mem[s.page + 1]));
  }

  lemma FirstTurnKeeps(s: Sys, ev: Event)
    requires Inv(s) && Legal(s, ev) && s.page == 0 && ev.Put? && ev.off == 0
    ensures Inv(Apply(s, ev)) && Log(Apply(s, ev)) == Log(s) == []
  {
    var s' := Apply(s, ev);
    EmptyFrom(s'.mem[1]);
    assert s'.mem[1][H_START_NANO..H_START_NANO + 8] == s.mem[1][H_START_NANO..H_START_NANO + 8];
    assert Shape(s');
    assert LogFrom(s'.mem, 1, 1) == Frames(s'.mem[1], PAGE_INIT) + LogFrom(s'.mem, 2, 1) == [];
  }

  // ---------------------------------------------------------------- all of them

  lemma InitialInv()
    ensures Inv(Initial) && Log(Initial) == []
  {
  }

  /** Every legal store keeps the invariant; the log grows by exactly the published frame, or not at all. */
  lemma StoreKeepsInv(s: Sys, ev: Event)
    requires Inv(s) && Legal(s, ev)
    ensures Inv(Apply(s, ev))
    ensures Log(Apply(s, ev)) ==
      if Commits(s, ev) then Log(s) + [s.mem[s.page][s.pos + 1..Apply(s, ev).pos]] else Log(s)
  {
    match ev
    case Create(p) => CreateKeeps(s, p);
    case Put(p, off, b) =>
      if p == s.page + 1 {
        if s.page == 0 && off == 0 { FirstTurnKeeps(s, ev); } else { PrepareKeeps(s, off, b); }
      } else if off == s.pos {
        if b == WRITTEN { CommitKeeps(s, ev); } else { TurnKeeps(s, ev); }
      } else {
        BodyKeeps(s, off, b);
      }
  }
}
