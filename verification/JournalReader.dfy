/**
 Readers of the journal. A reader looks at the shared bytes one at a time, whenever it likes, and
 the writer may store between any two looks.
 */
module JournalReader {
  import opened Bytes
  import opened Parts
  import opened JournalLayout
  import opened JournalProtocol
  import opened JournalInvariant

  /** Where a reader is: without a page, expired, polling the status at its cursor, or part way through the
      bytes of a frame it has seen to be written. */
  datatype Place = NoPage | Expired | Polling(page: nat, pos: nat) | Reading(page: nat, pos: nat, got: seq<byte>)

  /** The frames its last seek passed over, and those delivered since. */
  datatype Reader = Reader(place: Place, skipped: seq<Raw>, delivered: seq<Raw>) {
    function Past(): seq<Raw> { skipped + delivered }
  }

  const Started := Reader(NoPage, [], [])

  /** A page file a reader can load: present, with a header that is not raw. */
  predicate Loadable(mem: Mem, page: nat) {
    page in mem && |mem[page]| == PAGE_SIZE && mem[page][0] != RAW
  }

  function LoadPage(mem: Mem, page: nat): Place {
    if Loadable(mem, page) then Polling(page, PAGE_INIT) else NoPage
  }

  /** The cursor's frame header lies in the page, and so do the bytes its length announces. */
  predicate InPage(mem: Mem, page: nat, pos: nat) {
    page in mem && pos + BASIC_HEADER <= |mem[page]| &&
    LengthAt(mem[page], pos) >= BASIC_HEADER && pos + LengthAt(mem[page], pos) <= |mem[page]|
  }

  /** One look at the memory. A reader that finds no next page falls back to having no page, and
      a reader without a page starts from page 1. An expired reader looks no more. */
  function ReaderStep(mem: Mem, r: Reader): Reader {
    match r.place
    case NoPage => r.(place := LoadPage(mem, 1))
    case Expired => r
    case Polling(page, pos) =>
      if page !in mem || pos >= |mem[page]| then r
      else if mem[page][pos] == WRITTEN then r.(place := Reading(page, pos, []))
      else if mem[page][pos] == PAGE_END then r.(place := LoadPage(mem, page + 1))
      else r
    case Reading(page, pos, got) =>
      if !InPage(mem, page, pos) then r
      else
        var len := LengthAt(mem[page], pos);
        if |got| + 1 < len then
          r.(place := Reading(page, pos, got + [mem[page][pos + 1 + |got|]]))
        else
          Reader(Polling(page, pos + len), r.skipped, r.delivered + [got])
  }

  // ---------------------------------------------------------------- what a reader still has to read

  ghost predicate OnTrack(mem: Mem, n: nat, page: nat, pos: nat) {
    PagesOK(mem, 1, n) &&
    1 <= page <= n && PAGE_INIT <= pos && Chain(mem[page], pos)
    && ScanEnd(mem[page], pos) == ScanEnd(mem[page], PAGE_INIT)
  }

  /** Everything from the reader's cursor to the end of the log. */
  ghost function Remaining(mem: Mem, n: nat, page: nat, pos: nat): seq<Raw>
    requires OnTrack(mem, n, page, pos)
  {
    Frames(mem[page], pos) + LogFrom(mem, page + 1, n)
  }

  ghost predicate At(mem: Mem, n: nat, page: nat, pos: nat, past: seq<Raw>) {
    OnTrack(mem, n, page, pos) && past + Remaining(mem, n, page, pos) == LogFrom(mem, 1, n)
  }

  /** A reader that a seek put on the next page before the writer moved there, with all of the log behind it. */
  ghost predicate Waiting(mem: Mem, n: nat, page: nat, pos: nat, past: seq<Raw>) {
    && 1 <= n && page == n + 1 && pos == PAGE_INIT && page in mem && |mem[page]| == PAGE_SIZE
    && mem[page][0] != RAW && mem[page][PAGE_INIT] == RAW && PagesOK(mem, 1, n) && past == LogFrom(mem, 1, n)
  }

  ghost predicate Got(pg: PageBytes, pos: nat, got: seq<byte>) {
    && Chain(pg, pos) && pg[pos] == WRITTEN && |got| < LengthAt(pg, pos)
    && ScanEnd(pg, pos) >= pos + LengthAt(pg, pos)
    && got == pg[pos + 1..pos + 1 + |got|]
  }

  ghost predicate Consistent(mem: Mem, n: nat, r: Reader) {
    match r.place
    case NoPage => r.Past() == []
    case Expired => PagesOK(mem, 1, n) && r.Past() <= LogFrom(mem, 1, n)
    case Polling(page, pos) => At(mem, n, page, pos, r.Past()) || Waiting(mem, n, page, pos, r.Past())
    case Reading(page, pos, got) => At(mem, n, page, pos, r.Past()) && Got(mem[page], pos, got)
  }

  lemma ConsistentPrefix(mem: Mem, n: nat, r: Reader)
    requires PagesOK(mem, 1, n) && Consistent(mem, n, r)
    ensures r.Past() <= LogFrom(mem, 1, n)
  {
    if (r.place.Polling? || r.place.Reading?) && !Waiting(mem, n, r.place.page, r.place.pos, r.Past()) {
      assert r.Past() + Remaining(mem, n, r.place.page, r.place.pos) == LogFrom(mem, 1, n);
    }
  }

  lemma FirstPageConsistent(s: Sys, r: Reader)
    requires Shape(s) && r.place == NoPage && r.Past() == []
    ensures Consistent(s.mem, s.page, ReaderStep(s.mem, r))
  {
    if Loadable(s.mem, 1) {
      assert s.page >= 1;
      assert Log(s) == Frames(s.mem[1], PAGE_INIT) + LogFrom(s.mem, 2, s.page);
    }
  }

  /** A page that reads PAGE_END has a loadable successor: a reader never falls back to page 1. */
  lemma NextPageReady(s: Sys, page: nat)
    requires Shape(s) && 1 <= page <= s.page && s.mem[page][ScanEnd(s.mem[page], PAGE_INIT)] == PAGE_END
    ensures page < s.page && LoadPage(s.mem, page + 1) == Polling(page + 1, PAGE_INIT)
  {
  }

  lemma TurnConsistent(mem: Mem, n: nat, page: nat, pos: nat, past: seq<Raw>)
    requires At(mem, n, page, pos, past) && mem[page][pos] == PAGE_END && page < n
    ensures At(mem, n, page + 1, PAGE_INIT, past)
  {
    assert Remaining(mem, n, page, pos) == [] + LogFrom(mem, page + 1, n) == Remaining(mem, n, page + 1, PAGE_INIT);
  }

  lemma WrittenWithin(pg: PageBytes, pos: nat)
    requires Chain(pg, pos) && pg[pos] == WRITTEN
    ensures ScanEnd(pg, pos) >= pos + LengthAt(pg, pos) && Got(pg, pos, [])
  {
  }

  lemma DeliverConsistent(mem: Mem, n: nat, page: nat, pos: nat, past: seq<Raw>)
    requires At(mem, n, page, pos, past) && mem[page][pos] == WRITTEN
    ensures var end := pos + LengthAt(mem[page], pos); At(mem, n, page, end, past + [mem[page][pos + 1..end]])
  {
    var end := pos + LengthAt(mem[page], pos);
    var raw := mem[page][pos + 1..end];
    assert OnTrack(mem, n, page, end) && Frames(mem[page], pos) == [raw] + Frames(mem[page], end);
    Regroup([raw], Frames(mem[page], end), LogFrom(mem, page + 1, n));
    Regroup(past, [raw], Remaining(mem, n, page, end));
  }

  lemma LookConsistent(mem: Mem, n: nat, r: Reader)
    requires r.place.Reading? && Consistent(mem, n, r)
    ensures Consistent(mem, n, ReaderStep(mem, r))
  {
    hide Remaining, LogFrom, Frames;
    var Reading(page, pos, got) := r.place;
    var pg := mem[page];
    if |got| + 1 < LengthAt(pg, pos) {
      assert got + [pg[pos + 1 + |got|]] == pg[pos + 1..pos + 2 + |got|];
    } else {
      DeliverConsistent(mem, n, page, pos, r.Past());
      Regroup(r.skipped, r.delivered, [got]);
    }
  }

  /** No look at the memory makes a reader deliver anything but the next frame of the log, whole. */
  lemma ReaderStepConsistent(s: Sys, r: Reader)
    requires Shape(s) && Consistent(s.mem, s.page, r)
    ensures Consistent(s.mem, s.page, ReaderStep(s.mem, r))
  {
    match r.place
    case NoPage => FirstPageConsistent(s, r);
    case Expired =>
    case Polling(page, pos) =>
      if s.mem[page][pos] == PAGE_END {
        NextPageReady(s, page);
        TurnConsistent(s.mem, s.page, page, pos, r.Past());
      } else if s.mem[page][pos] == WRITTEN {
        WrittenWithin(s.mem[page], pos);
      }
    case Reading(_, _, _) => LookConsistent(s.mem, s.page, r);
  }

  // ---------------------------------------------------------------- the writer's stores, seen by a reader

  /** A store a reader may see on its page: off the written frames, or over the end status. */
  ghost predicate Seemly(pg: PageBytes, off: nat, b: byte) {
    && Chain(pg, PAGE_INIT) && off < |pg| && (off < PAGE_INIT || off >= ScanEnd(pg, PAGE_INIT))
    && (off == ScanEnd(pg, PAGE_INIT) && b == WRITTEN ==> CommitReady(pg, off))
  }

  /** The frame a store publishes, if it publishes one. */
  ghost function Published(pg: PageBytes, off: nat, b: byte): seq<Raw>
    requires Seemly(pg, off, b)
  {
    if off == ScanEnd(pg, PAGE_INIT) && b == WRITTEN then [pg[off + 1..off + LengthAt(pg, off)]] else []
  }

  /** What one store to a page does to a scan from any of its frame boundaries. */
  lemma StoreSeen(pg: PageBytes, pos: nat, off: nat, b: byte)
    requires Seemly(pg, off, b) && PAGE_INIT <= pos && Chain(pg, pos)
    requires ScanEnd(pg, pos) == ScanEnd(pg, PAGE_INIT)
    ensures Chain(pg[off := b], pos) && Chain(pg[off := b], PAGE_INIT)
    ensures ScanEnd(pg[off := b], pos) == ScanEnd(pg[off := b], PAGE_INIT)
    ensures Frames(pg[off := b], pos) == Frames(pg, pos) + Published(pg, off, b)
  {
    hide Chain, Frames, ScanEnd, CommitReady;
    if off != ScanEnd(pg, pos) {
      StoreElsewhere(pg, pos, off, b);
      StoreElsewhere(pg, PAGE_INIT, off, b);
    } else if b == WRITTEN {
      StoreWritten(pg, pos, off);
      StoreWritten(pg, PAGE_INIT, off);
    } else {
      StoreClosed(pg, pos, off, b);
      StoreClosed(pg, PAGE_INIT, off, b);
    }
  }

  /** A written frame keeps its bytes. */
  lemma StoreKeepsFrame(pg: PageBytes, pos: nat, off: nat, b: byte, got: seq<byte>)
    requires Seemly(pg, off, b) && PAGE_INIT <= pos && Got(pg, pos, got)
    requires ScanEnd(pg, pos) == ScanEnd(pg, PAGE_INIT)
    ensures Got(pg[off := b], pos, got)
  {
    hide Frames, Published, CommitReady;
    var pg' := pg[off := b];
    StoreSeen(pg, pos, off, b);
    assert pg'[pos + F_LENGTH..pos + F_LENGTH + 4] == pg[pos + F_LENGTH..pos + F_LENGTH + 4];
    assert pg'[pos + 1..pos + 1 + |got|] == pg[pos + 1..pos + 1 + |got|];
    WrittenWithin(pg', pos);
  }

  /** `mem'` is `mem` after a store on its last page, or on a page no reader can reach; at most one
      empty page was opened. */
  ghost predicate Succeeds(mem: Mem, n: nat, mem': Mem, n': nat, off: nat, b: byte) {
    && PagesOK(mem, 1, n) && PagesOK(mem', 1, n') && n <= n' <= n + 1
    && (forall k: nat :: 1 <= k < n ==> mem'[k] == mem[k])
    && (n < n' ==> Frames(mem'[n'], PAGE_INIT) == [])
    && (1 <= n ==> Seemly(mem[n], off, b) && mem'[n] == mem[n][off := b])
  }

  ghost function More(mem: Mem, n: nat, off: nat, b: byte): seq<Raw>
    requires 1 <= n ==> n in mem && Seemly(mem[n], off, b)
  {
    if n == 0 then [] else Published(mem[n], off, b)
  }

  lemma {:induction false} GrowsFrom(mem: Mem, n: nat, mem': Mem, n': nat, more: seq<Raw>, k: nat)
    requires 1 <= k <= n <= n' && PagesOK(mem, k, n) && PagesOK(mem', k, n')
    requires forall i: nat :: k <= i < n ==> mem'[i] == mem[i]
    requires LogFrom(mem', n, n') == LogFrom(mem, n, n) + more
    ensures LogFrom(mem', k, n') == LogFrom(mem, k, n) + more
    decreases n - k
  {
    hide Chain, Frames;
    if k < n {
      GrowsFrom(mem, n, mem', n', more, k + 1);
      Regroup(Frames(mem[k], PAGE_INIT), LogFrom(mem, k + 1, n), more);
    }
  }

  lemma SucceedsFrom(mem: Mem, n: nat, mem': Mem, n': nat, off: nat, b: byte, k: nat)
    requires Succeeds(mem, n, mem', n', off, b) && 1 <= k <= n
    ensures LogFrom(mem', k, n') == LogFrom(mem, k, n) + More(mem, n, off, b)
  {
    SucceedsLast(mem, n, mem', n', off, b);
    GrowsFrom(mem, n, mem', n', More(mem, n, off, b), k);
  }

  lemma SucceedsLast(mem: Mem, n: nat, mem': Mem, n': nat, off: nat, b: byte)
    requires Succeeds(mem, n, mem', n', off, b)
    ensures LogFrom(mem', n + 1, n') == []
    ensures 1 <= n ==> LogFrom(mem', n, n') == LogFrom(mem, n, n) + More(mem, n, off, b)
  {
    hide Chain, Frames, ScanEnd;
    if n < n' {
      assert LogFrom(mem', n', n') == [] + LogFrom(mem', n' + 1, n');
    }
    if 1 <= n {
      StoreSeen(mem[n], PAGE_INIT, off, b);
      assert LogFrom(mem', n, n') == Frames(mem'[n], PAGE_INIT) + [];
      assert LogFrom(mem, n, n) == Frames(mem[n], PAGE_INIT) + [];
    }
  }

  /** What is left to read grows by exactly what the log grows by. */
  lemma StoreRemaining(mem: Mem, n: nat, mem': Mem, n': nat, off: nat, b: byte, page: nat, pos: nat)
    requires Succeeds(mem, n, mem', n', off, b) && OnTrack(mem, n, page, pos)
    ensures OnTrack(mem', n', page, pos)
    ensures Remaining(mem', n', page, pos) == Remaining(mem, n, page, pos) + More(mem, n, off, b)
  {
    hide Chain, Frames, ScanEnd;
    if page < n {
      SucceedsFrom(mem, n, mem', n', off, b, page + 1);
      Regroup(Frames(mem[page], pos), LogFrom(mem, page + 1, n), More(mem, n, off, b));
    } else {
      StoreSeen(mem[n], pos, off, b);
      SucceedsLast(mem, n, mem', n', off, b);
      assert Remaining(mem', n', n, pos) == Frames(mem'[n], pos) + [];
      assert Remaining(mem, n, n, pos) == Frames(mem[n], pos) + [];
    }
  }

  lemma StoreAt(mem: Mem, n: nat, mem': Mem, n': nat, off: nat, b: byte, page: nat, pos: nat, past: seq<Raw>)
    requires Succeeds(mem, n, mem', n', off, b) && At(mem, n, page, pos, past)
    ensures At(mem', n', page, pos, past)
  {
    SucceedsFrom(mem, n, mem', n', off, b, 1);
    StoreRemaining(mem, n, mem', n', off, b, page, pos);
    Regroup(past, Remaining(mem, n, page, pos), More(mem, n, off, b));
  }

  lemma StoreLog(mem: Mem, n: nat, mem': Mem, n': nat, off: nat, b: byte)
    requires Succeeds(mem, n, mem', n', off, b)
    ensures LogFrom(mem, 1, n) <= LogFrom(mem', 1, n')
  {
    if 1 <= n {
      SucceedsFrom(mem, n, mem', n', off, b, 1);
    }
  }

  /** No store of the writer makes a reader's position or its half-read frame stale. */
  lemma StoreConsistent(mem: Mem, n: nat, mem': Mem, n': nat, off: nat, b: byte, r: Reader)
    requires Succeeds(mem, n, mem', n', off, b) && Consistent(mem, n, r)
    requires r.place.Polling? ==> r.place.page <= n
    ensures Consistent(mem', n', r)
  {
    match r.place
    case NoPage =>
    case Expired => StoreLog(mem, n, mem', n', off, b);
    case Polling(page, pos) => StoreAt(mem, n, mem', n', off, b, page, pos, r.Past());
    case Reading(page, pos, got) =>
      StoreAt(mem, n, mem', n', off, b, page, pos, r.Past());
      if page == n {
        StoreKeepsFrame(mem[n], pos, off, b, got);
      }
  }

  /** Every legal store is one that readers stay consistent with. */
  lemma LegalSucceeds(s: Sys, ev: Event) returns (off: nat, b: byte)
    requires Shape(s) && Legal(s, ev) && Shape(Apply(s, ev))
    ensures Succeeds(s.mem, s.page, Apply(s, ev).mem, Apply(s, ev).page, off, b)
  {
    hide Chain, Frames, ScanEnd, ClosedPage, StartNano, NanoAt, CommitReady, TurnReady;
    if ev.Put? && ev.page == s.page {
      off, b := ev.off, ev.b;
    } else {
      off, b := 0, PAGE_INITED;
      if 1 <= s.page {
        assert s.mem[s.page][0 := PAGE_INITED] == s.mem[s.page];
      }
    }
    if Apply(s, ev).page > s.page {
      EmptyFrom(Apply(s, ev).mem[s.page + 1]);
    }
  }

  /** A reader ahead of the writer stays there, and finds itself at the writer's cursor when the page turns. */
  lemma WaitingConsistent(s: Sys, ev: Event, page: nat, pos: nat, past: seq<Raw>)
    requires Inv(s) && Legal(s, ev) && Waiting(s.mem, s.page, page, pos, past)
    ensures var s' := Apply(s, ev);
      if s'.page == s.page then Waiting(s'.mem, s.page, page, pos, past) else At(s'.mem, s'.page, page, pos, past)
  {
    hide Stamped, Chain, Frames, LogFrom, ScanEnd, ClosedPage, StartNano, NanoAt, CommitReady;
    var s' := Apply(s, ev);
    StoreKeepsInv(s, ev);
    if s'.page != s.page {
      EmptyFrom(s'.mem[page]);
      ReadEverything(s'.mem, page);
    }
  }

  lemma ReadEverything(mem: Mem, n: nat)
    requires PagesOK(mem, 1, n) && 1 <= n && mem[n][PAGE_INIT] != WRITTEN
    ensures OnTrack(mem, n, n, PAGE_INIT) && Remaining(mem, n, n, PAGE_INIT) == []
  {
  }

  lemma LegalConsistent(s: Sys, ev: Event, r: Reader)
    requires Inv(s) && Legal(s, ev) && Shape(Apply(s, ev)) && Consistent(s.mem, s.page, r)
    ensures Consistent(Apply(s, ev).mem, Apply(s, ev).page, r)
  {
    hide Stamped, Poised, Legal, Apply, Shape, At, Got;
    if r.place.Polling? && Waiting(s.mem, s.page, r.place.page, r.place.pos, r.Past()) {
      WaitingConsistent(s, ev, r.place.page, r.place.pos, r.Past());
    } else {
      var off, b := LegalSucceeds(s, ev);
      if r.place.Polling? { ConsistentBehind(s.mem, s.page, r); }
      StoreConsistent(s.mem, s.page, Apply(s, ev).mem, Apply(s, ev).page, off, b, r);
    }
  }

  lemma ConsistentBehind(mem: Mem, n: nat, r: Reader)
    requires Consistent(mem, n, r) && r.place.Polling? && !Waiting(mem, n, r.place.page, r.place.pos, r.Past())
    ensures r.place.page <= n
  {
  }
}
