/** A reader that looks often enough while the writer rests delivers the whole log. */
module JournalProgress {
  import opened JournalLayout
  import opened JournalProtocol
  import opened JournalReader
  import opened JournalWorld

  const PAGE_WEIGHT: nat := 2 * PAGE_SIZE

  ghost function BytesLeft(pg: PageBytes, pos: nat): nat
    requires Chain(pg, pos)
  {
    ScanEnd(pg, pos) - pos
  }

  /** How far a reader is from the end of the log: twice the bytes left on its page, less what it has read of
      the frame at hand, and a whole page's worth for every page after it. */
  ghost function Distance(s: Sys, r: Reader): nat
    requires Shape(s) && Consistent(s.mem, s.page, r)
  {
    hide Shape, Remaining, LogFrom, Frames, Chain, ScanEnd, LengthAt;
    match r.place
    case NoPage => s.page * PAGE_WEIGHT
    case Expired => 0
    case Polling(page, pos) => if page > s.page then 0 else (s.page - page) * PAGE_WEIGHT + 2 * BytesLeft(s.mem[page], pos)
    case Reading(page, pos, got) => (s.page - page) * PAGE_WEIGHT + 2 * BytesLeft(s.mem[page], pos) - 1 - |got|
  }

  lemma PagesLeft(a: nat, b: nat)
    requires a < b
    ensures a * PAGE_WEIGHT + PAGE_WEIGHT <= b * PAGE_WEIGHT
  {
  }

  /** A written frame is seen, */
  lemma NearerSeen(s: Sys, r: Reader)
    requires Shape(s) && Consistent(s.mem, s.page, r) && r.place.Polling?
    requires r.place.page <= s.page && s.mem[r.place.page][r.place.pos] == WRITTEN
    ensures var r' := ReaderStep(s.mem, r);
      && Consistent(s.mem, s.page, r') && Distance(s, r') < Distance(s, r)
  {
    hide LogFrom, Frames, Remaining, ClosedPage, OpenPage;
    ReaderStepConsistent(s, r);
  }

  /** one of its bytes is read, or the last one and the frame is delivered. */
  lemma NearerRead(s: Sys, r: Reader)
    requires Shape(s) && Consistent(s.mem, s.page, r) && r.place.Reading?
    ensures var r' := ReaderStep(s.mem, r);
      && Consistent(s.mem, s.page, r') && Distance(s, r') < Distance(s, r)
  {
    hide LogFrom, Frames, Remaining, ClosedPage, OpenPage, LengthAt;
    ReaderStepConsistent(s, r);
  }

  /** From page to page, and onto the first one. */
  lemma NearerPage(s: Sys, r: Reader)
    requires Shape(s) && Consistent(s.mem, s.page, r) && 1 <= s.page
    requires r.place.NoPage? || (r.place.Polling? && r.place.page <= s.page && s.mem[r.place.page][r.place.pos] == PAGE_END)
    ensures var r' := ReaderStep(s.mem, r);
      && Consistent(s.mem, s.page, r') && Distance(s, r') < Distance(s, r)
  {
    hide LogFrom, Frames, Remaining, OpenPage;
    ReaderStepConsistent(s, r);
    var page := if r.place.NoPage? then 0 else r.place.page;
    if r.place.Polling? {
      NextPageReady(s, page);
    }
    PagesLeft(s.page - (page + 1), s.page - page);
  }

  /** A reader that does not move has the whole log behind it. */
  lemma Finished(s: Sys, r: Reader)
    requires Shape(s) && Consistent(s.mem, s.page, r) && 1 <= s.page && r.place.Polling?
    requires r.place.page > s.page || (s.mem[r.place.page][r.place.pos] != WRITTEN && s.mem[r.place.page][r.place.pos] != PAGE_END)
    ensures ReaderStep(s.mem, r) == r && r.Past() == Log(s)
  {
    hide LogFrom;
    if r.place.page <= s.page {
      var page, pos := r.place.page, r.place.pos;
      assert ScanEnd(s.mem[page], pos) == pos && page == s.page;
      assert LogFrom(s.mem, page + 1, s.page) == [] by { NothingAfter(s.mem, s.page); }
      assert Remaining(s.mem, s.page, page, pos) == [];
    }
  }

  lemma NothingAfter(mem: Mem, n: nat)
    ensures PagesOK(mem, n + 1, n) && LogFrom(mem, n + 1, n) == []
  {
  }

  /** Every look brings a reader nearer, or it has the whole log behind it and stays. */
  lemma LookProgress(s: Sys, r: Reader)
    requires Shape(s) && 1 <= s.page && Consistent(s.mem, s.page, r) && r.place != Expired
    ensures var r' := ReaderStep(s.mem, r);
      && r'.place != Expired && Consistent(s.mem, s.page, r')
      && (Distance(s, r') < Distance(s, r) || (r' == r && r.Past() == Log(s)))
  {
    hide LogFrom, Frames, Remaining, ClosedPage, OpenPage, Chain, ScanEnd, Distance;
    match r.place
    case NoPage => NearerPage(s, r);
    case Reading(_, _, _) => NearerRead(s, r);
    case Polling(page, pos) =>
      if page > s.page {
        Finished(s, r);
      } else if s.mem[page][pos] == WRITTEN {
        NearerSeen(s, r);
      } else if s.mem[page][pos] == PAGE_END {
        NearerPage(s, r);
      } else {
        Finished(s, r);
      }
  }

  ghost function Looks(mem: Mem, r: Reader, k: nat): Reader
    decreases k
  {
    if k == 0 then r else Looks(mem, ReaderStep(mem, r), k - 1)
  }

  lemma {:induction false} LooksDeliver(s: Sys, r: Reader, k: nat)
    requires Shape(s) && 1 <= s.page && Consistent(s.mem, s.page, r) && r.place != Expired
    requires k > Distance(s, r)
    ensures Looks(s.mem, r, k).Past() == Log(s)
    decreases k
  {
    hide LogFrom, Shape, Consistent, Distance, ReaderStep;
    LookProgress(s, r);
    if ReaderStep(s.mem, r) == r && r.Past() == Log(s) {
      LooksStay(s.mem, r, k);
    } else {
      LooksDeliver(s, ReaderStep(s.mem, r), k - 1);
    }
  }

  lemma {:induction false} LooksStay(mem: Mem, r: Reader, k: nat)
    requires ReaderStep(mem, r) == r
    ensures Looks(mem, r, k) == r
  {
    if k > 0 {
      LooksStay(mem, r, k - 1);
    }
  }

  /** In every run: when the writer rests, a reader that is not expired and looks more often than its distance
      from the end has the whole log behind it. No look of a run is ever stuck before that. */
  lemma ReaderCatchesUp(n: nat, steps: seq<Step>, w: World, i: nat, k: nat)
    requires Run(Start(n), steps, w) && i < |w.readers| && w.readers[i].place != Expired && 1 <= w.sys.page
    ensures Shape(w.sys) && Consistent(w.sys.mem, w.sys.page, w.readers[i])
    ensures k > Distance(w.sys, w.readers[i]) ==> Looks(w.sys.mem, w.readers[i], k).Past() == Log(w.sys)
  {
    hide Stamped, Shape, LogFrom, Consistent, Distance, Faithful, Promise;
    StartKeeps(n);
    RunKeeps(Start(n), steps, w);
    InvShape(w.sys);
    if k > Distance(w.sys, w.readers[i]) {
      LooksDeliver(w.sys, w.readers[i], k);
    }
  }
}
