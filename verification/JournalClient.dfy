/** A journal and its writer: the operations a client calls, tied to the programs and the log. */
module JournalClient {
  import opened Bytes
  import opened JournalLayout
  import opened JournalProtocol
  import opened JournalInvariant
  import opened JournalProgram
  import opened JournalWriterProof
  import opened JournalTurnProof
  import opened JournalReader
  import opened JournalSeek
  import opened JournalFiles
  import opened JournalObjects

  /** The header fields of a new page, before its status. */
  method InitFields(files: PageFiles, pageNum: nat, t: Turning)
    requires files.Valid() && pageNum in files.pages && |t.name| < 30
    modifies files, files.Arrays
    ensures files.Valid() && files.Arrays == old(files.Arrays) && files.pages == old(files.pages)
    ensures files.trace == old(files.trace) + PutAll(pageNum, LoadPatches(pageNum, t))
  {
    hide Puts, Le, PageFiles.Valid;
    files.PutBytes(pageNum, H_NAME, t.name + [0]);
    files.PutBytes(pageNum, H_START_NANO, Le(t.startNano, 8));
    files.PutBytes(pageNum, H_CLOSE_NANO, Le(-1, 8));
    files.PutBytes(pageNum, H_PAGE_NUM, Le(pageNum, 2));
    FourPatches(pageNum, LoadPatches(pageNum, t));
  }

  /** Initialises the header of a page. */
  method InitHeader(files: PageFiles, pageNum: nat, t: Turning)
    requires files.Valid() && pageNum in files.pages && |t.name| < 30
    modifies files, files.Arrays
    ensures files.Valid() && files.Arrays == old(files.Arrays) && files.pages == old(files.pages)
    ensures files.trace == old(files.trace) + LoadProgram(pageNum, t)
  {
    hide Puts, Le, PageFiles.Valid, PutAll, LoadPatches;
    InitFields(files, pageNum, t);
    files.PutByte(pageNum, 0, PAGE_INITED);
    files.PutBytes(pageNum, H_VERSION, Le(FRAME_VERSION, 2));
  }

  lemma FourPatches(p: nat, ps: seq<Patch>)
    requires |ps| == 4
    ensures PutAll(p, ps) == Puts(p, ps[0].off, ps[0].bytes) + Puts(p, ps[1].off, ps[1].bytes)
                             + Puts(p, ps[2].off, ps[2].bytes) + Puts(p, ps[3].off, ps[3].bytes)
  {
    assert PutAll(p, ps) == Puts(p, ps[0].off, ps[0].bytes) + PutAll(p, ps[1..]);
    ThreePatches(p, ps[1..]);
  }

  /** What loading a page for writing stores. */
  ghost function WriterLoad(mem: Mem, pageNum: nat, t: Turning): seq<Event> {
    if pageNum !in mem then [Create(pageNum)] + LoadProgram(pageNum, t)
    else if |mem[pageNum]| > 0 && mem[pageNum][0] == RAW then LoadProgram(pageNum, t)
    else []
  }

  /** Loading this page throws. */
  ghost predicate Throws(mem: Mem, pageNum: nat) {
    pageNum in mem && |mem[pageNum]| == PAGE_SIZE && mem[pageNum][0] != RAW && VersionMismatch(mem[pageNum])
  }

  /** The exception of a page with another frame version. */
  method CheckVersion(files: PageFiles, pageNum: nat) returns (thrown: bool)
    requires files.Valid() && pageNum in files.pages
    ensures pageNum in files.Mem() && |files.Mem()[pageNum]| == PAGE_SIZE && thrown == VersionMismatch(files.Mem()[pageNum])
  {
    var version := files.GetField(pageNum, H_VERSION, 2);
    thrown := version > 0 && version != FRAME_VERSION;
  }

  /** A writer creates the page file if it is missing and initialises a raw header; it throws at a page that
      another version of the program has initialised. */
  method LoadForWriting(files: PageFiles, pageNum: nat, t: Turning) returns (page: Page?)
    requires files.Valid() && |t.name| < 30
    modifies files, files.Arrays
    ensures files.Valid() && fresh(files.Arrays - old(files.Arrays)) && pageNum in files.pages
    ensures old(files.pages).Keys <= files.pages.Keys
    ensures files.trace == old(files.trace) + WriterLoad(old(files.Mem()), pageNum, t)
    ensures page == null <==> Throws(old(files.Mem()), pageNum)
    ensures page != null ==> fresh(page) && AtFront(page, files, pageNum)
  {
    hide LoadProgram, PageFiles.Valid;
    PagesMatch(files);
    if pageNum !in files.pages {
      files.CreatePage(pageNum);
      PagesMatch(files);
      assert files.trace[..|files.trace| - 1] == old(files.trace);
      assert files.Mem()[pageNum] == ZeroPage();
    }
    var status := files.GetByte(pageNum, 0);
    if status == RAW {
      InitHeader(files, pageNum, t);
    } else {
      var thrown := CheckVersion(files, pageNum);
      if thrown { return null; }
    }
    page := new Page(files, pageNum);
  }

  /** In a journal kept by its writer nothing is thrown. */
  lemma NothingThrown(s: Sys)
    requires Inv(s)
    ensures forall k :: !Throws(s.mem, k)
  {
    hide Stamped, Shape, VersionMismatch;
    forall k | k in s.mem ensures !VersionMismatch(s.mem[k]) { VersionMatches(s.mem[k]); }
  }

  /** A page at its first frame. */
  ghost predicate AtFront(page: Page, files: PageFiles, pageNum: nat)
    reads page
  {
    page.files == files && page.pageNum == pageNum && page.position == PAGE_INIT && page.frameNum == 0
  }

  /** A reader cannot read a page that is missing or raw, and throws at one of another version. */
  method LoadForReading(files: PageFiles, pageNum: nat) returns (page: Page?, thrown: bool)
    requires files.Valid()
    ensures thrown <==> Throws(files.Mem(), pageNum)
    ensures page != null <==> Loadable(files.Mem(), pageNum) && !thrown
    ensures page != null ==> fresh(page) && AtFront(page, files, pageNum)
  {
    PagesMatch(files);
    if pageNum !in files.pages { return null, false; }
    var status := files.GetByte(pageNum, 0);
    if status == RAW { return null, false; }
    thrown := CheckVersion(files, pageNum);
    if thrown { return null, true; }
    page := new Page(files, pageNum);
  }

  /** The page numbers in the directory, ascending. */
  method GetPageNums(files: PageFiles) returns (nums: seq<nat>)
    requires files.Valid()
    ensures IsListing(files.Mem(), nums)
  {
    PagesMatch(files);
    nums := [];
    var left := files.pages.Keys;
    while left != {}
      invariant left <= files.pages.Keys
      invariant forall i :: 0 <= i < |nums| ==> nums[i] in files.pages
      invariant forall k :: k in files.pages ==> k in nums || k in left
      invariant forall i, j :: 0 <= i < j < |nums| ==> nums[i] < nums[j]
      invariant forall i, k :: 0 <= i < |nums| && k in left ==> nums[i] < k
      decreases left
    {
      var n := Least(left);
      nums := nums + [n];
      left := left - {n};
    }
  }

  method Least(s: set<nat>) returns (n: nat)
    requires s != {}
    ensures n in s && forall k :: k in s ==> n <= k
  {
    n :| n in s;
    var rest := s - {n};
    while rest != {}
      invariant n in s && rest <= s && forall k :: k in s && k !in rest ==> n <= k
      decreases rest
    {
      var k :| k in rest;
      if k < n { n := k; }
      rest := rest - {k};
    }
  }

  /** The newest page that started before `time`, looking from the newest back; page 1 if there is none. */
  method GetPageNumWithTime(files: PageFiles, time: int) returns (n: nat, ghost nums: seq<nat>)
    requires files.Valid()
    ensures IsListing(files.Mem(), nums) && Present(files.Mem(), nums) && n == PageForTime(files.Mem(), nums, time)
  {
    hide Field, MemAfter;
    PagesMatch(files);
    var pageNums := GetPageNums(files);
    nums := pageNums;
    var idx := |pageNums| - 1;
    while idx >= 0
      invariant -1 <= idx < |nums|
      invariant forall j :: idx < j < |nums| ==> StartNano(files.Mem()[nums[j]]) >= time
    {
      var start := files.GetField(pageNums[idx], H_START_NANO, 8);
      if start < time { return pageNums[idx], nums; }
      idx := idx - 1;
    }
    return 1, nums;
  }

  lemma CursorInPage(s: Sys)
    requires Inv(s) && 1 <= s.page
    ensures s.page in s.mem && |s.mem[s.page]| == PAGE_SIZE && PAGE_INIT <= s.pos < PAGE_SIZE
    ensures Chain(s.mem[s.page], s.pos) && s.mem[s.page][s.pos] == RAW && ScanEnd(s.mem[s.page], s.pos) == s.pos
    ensures Frames(s.mem[s.page], s.pos) == []
  {
    hide Stamped;
  }

  /** The memory after a turn of the page has been stored. */
  lemma TurnStored(base: Mem, trace: seq<Event>, s: Sys, t: Turning)
    requires Inv(s) && 1 <= s.page && s.page + 1 !in s.mem && ValidTurning(t, s.clock) && s.mem == MemAfter(base, trace)
    ensures var turn := TurnProgram(s.page, s.pos, |Frames(s.mem[s.page], PAGE_INIT)|, t);
      var s' := Sys(MemAfter(base, trace + turn), s.page + 1, PAGE_INIT, t.startNano);
      && Inv(s') && Log(s') == Log(s) && s'.page + 1 !in s'.mem && s'.page in s'.mem
      && Chain(s'.mem[s'.page], PAGE_INIT) && Frames(s'.mem[s'.page], PAGE_INIT) == []
  {
    hide Stamped, LegalAll, ApplyAll, TurnProgram, LogFrom;
    var turn := TurnProgram(s.page, s.pos, |Frames(s.mem[s.page], PAGE_INIT)|, t);
    TurnRun(s, t);
    ProgramMem(s, turn);
    MemAfterConcat(base, trace, turn);
  }

  /** The next page is obtained and initialised, and only then is the current one closed. */
  method AcquireThenFinish(files: PageFiles, cur: Page, t: Turning) returns (newPage: Page)
    requires files.Valid() && cur.files == files && cur.pageNum in files.pages && cur.position < PAGE_SIZE
    requires cur.pageNum + 1 !in files.Mem() && |t.name| < 30
    modifies files, files.Arrays
    ensures files.Valid() && fresh(files.Arrays - old(files.Arrays)) && fresh(newPage)
    ensures AtFront(newPage, files, cur.pageNum + 1) && newPage.pageNum in files.pages
    ensures files.trace == old(files.trace) + TurnProgram(cur.pageNum, cur.position, cur.frameNum, t)
  {
    hide MemAfter, FinishProgram, LoadProgram;
    var next := LoadForWriting(files, cur.pageNum + 1, t);
    newPage := next;
    cur.FinishPage(t.closeNano);
  }

  lemma ListingPresent(files: PageFiles, nums: seq<nat>)
    requires files.Valid() && IsListing(files.Mem(), nums)
    ensures Present(files.Mem(), nums)
  {
    PagesMatch(files);
  }

  function SeekOf(time: int): Seek {
    if time == TIME_TO_LAST then ToLast else if time == TIME_FROM_FIRST then FromFirst else ToTime(time)
  }

  lemma FreshEnd(pg: PageBytes)
    requires |pg| == PAGE_SIZE && Chain(pg, PAGE_INIT) && pg[PAGE_INIT] == RAW
    ensures ScanEnd(pg, PAGE_INIT) == PAGE_INIT && Frames(pg, PAGE_INIT) == []
  {
  }

  class Journal {
    const files: PageFiles
    const isWriting: bool
    var expired: bool
    var curPage: Page?

    constructor (files: PageFiles, isWriting: bool)
      ensures this.files == files && this.isWriting == isWriting && !expired && curPage == null
    {
      this.files, this.isWriting := files, isWriting;
      expired, curPage := false, null;
    }

    ghost predicate Valid()
      reads this, files, files.Arrays, curPage
    {
      files.Valid() && (curPage != null ==> curPage.files == files && curPage.Valid())
    }

    // ------------------------------------------------------------ writing

    /** The shared memory with this writer's cursor; `clock` is the latest stamp given out. */
    ghost function State(clock: int): Sys
      requires Valid() && curPage != null
      reads this, files, files.Arrays, curPage
    {
      Sys(files.Mem(), curPage.pageNum, curPage.position, clock)
    }

    /** The writer stands at the end of the journal and no page is half made. */
    ghost predicate Writing(clock: int)
      reads this, files, files.Arrays, curPage
    {
      && isWriting && !expired && Valid() && curPage != null && 1 <= curPage.pageNum
      && Inv(State(clock)) && curPage.pageNum + 1 !in files.Mem()
      && curPage.frameNum == |Frames(curPage.Bytes(), PAGE_INIT)|
    }

    /** Turns to the next page: it is obtained before the current one is finished. */
    method LoadNextPageForWriting(t: Turning, ghost clock: int)
      requires Writing(clock) && ValidTurning(t, clock)
      modifies this, files, files.Arrays
      ensures fresh(files.Arrays - old(files.Arrays)) && fresh(curPage)
      ensures Writing(t.startNano) && curPage.pageNum == old(curPage.pageNum) + 1 && curPage.position == PAGE_INIT
      ensures files.trace == old(files.trace) + TurnProgram(old(curPage.pageNum), old(curPage.position), old(curPage.frameNum), t)
      ensures Log(State(t.startNano)) == old(Log(State(clock)))
    {
      hide Inv, Log, MemAfter, TurnProgram, Chain, Frames, ScanEnd, PageFiles.Valid;
      ghost var s := State(clock);
      CursorInPage(s);
      TurnStored(files.base, files.trace, s, t);
      var newPage := AcquireThenFinish(files, curPage, t);
      PagesMatch(files);
      curPage := newPage;
    }

    /** The writer stands at the front of an empty page, whatever the pages before look like. */
    ghost predicate AtFreshPage()
      reads this, files, files.Arrays, curPage
    {
      && isWriting && !expired && Valid() && curPage != null
      && curPage.position == PAGE_INIT && curPage.frameNum == 0 && curPage.Bytes()[PAGE_INIT] == RAW
    }

    /** A writer's frame address: it turns the page for as long as there is no room, which is at most once. On an
        empty page there is room, and nothing is stored. */
    method LocateForWriting(t: Turning, ghost clock: int) returns (address: nat, ghost clock': int)
      requires ValidTurning(t, clock) && (Writing(clock) || AtFreshPage())
      modifies this, files, files.Arrays, curPage
      ensures fresh(files.Arrays - old(files.Arrays)) && (curPage == old(curPage) || fresh(curPage))
      ensures old(Writing(clock)) ==>
        && Writing(clock') && address == curPage.position && Writable(address)
        && files.trace == old(files.trace) + LocateProgram(old(curPage.pageNum), old(curPage.position), old(curPage.frameNum), t)
        && Log(State(clock')) == old(Log(State(clock)))
        && var turned := !Writable(old(curPage.position));
           && curPage.pageNum == old(curPage.pageNum) + (if turned then 1 else 0)
           && address == (if turned then PAGE_INIT else old(curPage.position))
           && clock' == (if turned then t.startNano else clock)
      ensures old(AtFreshPage()) ==>
        AtFreshPage() && curPage == old(curPage) && address == PAGE_INIT && files.trace == old(files.trace) && clock' == clock
    {
      hide Shape, Stamped, Log, MemAfter, TurnProgram, Chain, Frames, ScanEnd, PageFiles.Valid, Poised;
      ghost var writing, empty := Writing(clock), AtFreshPage();
      clock' := clock;
      if writing { CursorInPage(State(clock)); }
      if empty { FreshEnd(curPage.Bytes()); }
      var r := curPage.LocateWritableFrame();
      ghost var turn := LocateProgram(curPage.pageNum, curPage.position, curPage.frameNum, t);
      while r.None?
        invariant fresh(files.Arrays - old(files.Arrays)) && (curPage == old(curPage) || fresh(curPage))
        invariant empty ==> AtFreshPage() && curPage == old(curPage) && r == Some(PAGE_INIT)
        invariant empty ==> files.trace == old(files.trace) && clock' == clock
        invariant writing ==> Writing(clock') && Log(State(clock')) == old(Log(State(clock)))
        invariant writing ==> r == if Writable(curPage.position) then Some(curPage.position) else None
        invariant writing && r.None? ==> clock' == clock && files.trace == old(files.trace)
        invariant writing && r.None? ==> curPage == old(curPage) && curPage.position == old(curPage.position) && curPage.frameNum == old(curPage.frameNum)
        invariant writing && r.Some? ==> files.trace == old(files.trace) + turn
        invariant writing && r.Some? ==> clock' == if Writable(old(curPage.position)) then clock else t.startNano
        invariant writing && r.Some? ==> curPage.pageNum == old(curPage.pageNum) + if Writable(old(curPage.position)) then 0 else 1
        invariant writing && r.Some? ==> curPage.position == if Writable(old(curPage.position)) then old(curPage.position) else PAGE_INIT
        decreases r.None?
      {
        LoadNextPageForWriting(t, clock');
        clock' := t.startNano;
        CursorInPage(State(clock'));
        r := curPage.LocateWritableFrame();
      }
      address := r.value;
    }

    // ------------------------------------------------------------ reading

    /** Where the reader stands, as the reader's state machine sees it. */
    ghost function ReadPlace(): Place
      reads this, curPage
    {
      if expired then Expired else if curPage == null then NoPage else Polling(curPage.pageNum, curPage.position)
    }

    /** Loads page 1, or the page after the current one; a reader that finds none has no page. */
    method LoadNextPageForReading()
      requires Valid() && !isWriting && Readable(files.Mem())
      modifies this
      ensures Valid()
      ensures expired ==> curPage == old(curPage)
      ensures !expired ==> ReadPlace() == LoadPage(files.Mem(), if old(curPage) == null then 1 else old(curPage.pageNum) + 1)
      ensures curPage == old(curPage) || curPage == null || fresh(curPage)
      ensures expired == old(expired)
    {
      if expired { return; }
      PagesMatch(files);
      var newPage, thrown := LoadForReading(files, if curPage == null then 1 else curPage.pageNum + 1);
      curPage := newPage;
    }

    /** A reader's frame address. Loading a page is the step the reader's state machine takes at PAGE_END or
        without a page; the address is given exactly when the frame at the cursor is written. */
    method LocateForReading() returns (r: Option<nat>)
      requires Valid() && !isWriting && Readable(files.Mem())
      modifies this
      ensures Valid() && expired == old(expired) && (curPage == old(curPage) || curPage == null || fresh(curPage))
      ensures expired ==> r == None && curPage == old(curPage)
      ensures var turns := old(curPage == null || curPage.Bytes()[curPage.position] == PAGE_END);
        ReadPlace() == if turns then ReaderStep(files.Mem(), Reader(old(ReadPlace()), [], [])).place else old(ReadPlace())
      ensures r.Some? ==> curPage != null && r.value == curPage.position && curPage.Bytes()[curPage.position] == WRITTEN
      ensures r.None? && !expired && curPage != null ==> curPage.Bytes()[curPage.position] != WRITTEN
    {
      if expired { return None; }
      PagesMatch(files);
      if curPage == null {
        LoadNextPageForReading();
      } else {
        var ended := curPage.IsAtPageEnd();
        if ended {
          LoadNextPageForReading();
        }
      }
      if curPage == null { return None; }
      r := curPage.LocateReadableFrame();
    }

    /** Repositions a reader: at the first page, after the last written frame, or at a time, for which the
        page is selected by start time and scanned inside. A reader that finds no page is expired. */
    method SeekTimeForReading(time: int) returns (ghost nums: seq<nat>, ghost page: nat, ghost passed: seq<Raw>)
      requires Valid() && !isWriting && Readable(files.Mem())
      modifies this
      ensures Valid() && (curPage == null || fresh(curPage)) && IsListing(files.Mem(), nums) && Present(files.Mem(), nums)
      ensures (expired <==> curPage == null) && (curPage == null <==> !Loadable(files.Mem(), page))
      ensures curPage != null ==>
        && curPage.pageNum == page && Chain(curPage.Bytes(), PAGE_INIT)
        && Frames(curPage.Bytes(), PAGE_INIT) == passed + Frames(curPage.Bytes(), curPage.position) && curPage.frameNum == |passed|
      // to the end: the newest page file, after its last written frame
      ensures time == -1 ==> (nums == [] ==> page == 1) && (nums != [] ==> page in nums) && forall k :: k in nums ==> k <= page
      ensures time == -1 && curPage != null ==> Frames(curPage.Bytes(), curPage.position) == [] && curPage.Bytes()[curPage.position] != WRITTEN
      // to the beginning: the oldest page file, at its first frame
      ensures time == 0 ==> (nums == [] ==> page == 1) && (nums != [] ==> page in nums) && forall k :: k in nums ==> page <= k
      ensures time == 0 && curPage != null ==> curPage.position == PAGE_INIT && passed == []
      // to a time: the newest page file started before it, at the first frame not stamped before it
      ensures time != -1 && time != 0 ==>
        && (page in nums || page == 1)
        && (page in nums ==> StartNano(files.Mem()[page]) < time || page == 1)
        && forall i :: 0 <= i < |nums| && nums[i] > page ==> StartNano(files.Mem()[nums[i]]) >= time
      ensures time != -1 && time != 0 && curPage != null ==>
        && AllBefore(passed, time)
        && var ahead := Frames(curPage.Bytes(), curPage.position); ahead != [] ==> NanoOf(ahead[0]) >= time
      ensures ReadPlace() == SoughtPlace(files.Mem(), nums, SeekOf(time))
    {
      hide MemAfter, Chain, Frames, ScanEnd, ScanToTime, CountToTime, SoughtPage, Present, IsListing, StartNano, NanoOf, AllBefore, Skipped, VersionMismatch, PageFiles.Valid;
      var pageNum;
      pageNum, nums := SeekPage(time);
      page, passed := pageNum, [];
      PagesMatch(files);
      var newPage, thrown := LoadForReading(files, pageNum);
      curPage := newPage;
      if curPage != null {
        ghost var pg := curPage.Bytes();
        if time == TIME_TO_LAST {
          curPage.PassWrittenFrame();
          EndScanned(pg, PAGE_INIT);
          passed := Frames(pg, PAGE_INIT);
        } else if time != TIME_FROM_FIRST {
          curPage.PassToTime(time);
          ScanSplits(pg, PAGE_INIT, time);
          ScanStops(pg, PAGE_INIT, time);
          passed := Skipped(pg, PAGE_INIT, time);
        }
      }
      expired := curPage == null;
    }

    method SeekPage(time: int) returns (n: nat, ghost nums: seq<nat>)
      requires Valid()
      ensures IsListing(files.Mem(), nums) && Present(files.Mem(), nums) && n == SoughtPage(files.Mem(), nums, SeekOf(time))
      ensures time == -1 ==> (nums == [] ==> n == 1) && (nums != [] ==> n in nums) && forall k :: k in nums ==> k <= n
      ensures time == 0 ==> (nums == [] ==> n == 1) && (nums != [] ==> n in nums) && forall k :: k in nums ==> n <= k
      ensures time != -1 && time != 0 ==>
        && (n in nums || n == 1)
        && (n in nums ==> StartNano(files.Mem()[n]) < time || n == 1)
        && forall i :: 0 <= i < |nums| && nums[i] > n ==> StartNano(files.Mem()[nums[i]]) >= time
    {
      hide MemAfter, StartNano;
      if time == TIME_TO_LAST || time == TIME_FROM_FIRST {
        var pageNums := GetPageNums(files);
        nums := pageNums;
        ListingPresent(files, nums);
        n := if pageNums == [] then 1 else if time == TIME_TO_LAST then pageNums[|pageNums| - 1] else pageNums[0];
      } else {
        n, nums := GetPageNumWithTime(files, time);
      }
    }

    /** No frames until the next seek. */
    method Expire()
      requires Valid()
      modifies this
      ensures Valid() && expired
      ensures curPage == if old(expired) then old(curPage) else null
    {
      if !expired {
        expired := true;
        curPage := null;
      }
    }
  }

  // ---------------------------------------------------------------- the writer

  /** The fields of a frame are in the page, at the cursor, and its length is readable. */
  lemma FieldsInMemory(base: Mem, trace: seq<Event>, s: Sys, req: Request)
    requires AtWritable(s) && ValidRequest(req) && s.mem == MemAfter(base, trace)
    ensures var mem' := MemAfter(base, trace + PutAll(s.page, FramePatches(s.pos, req)));
      && s.page in mem' && |mem'[s.page]| == PAGE_SIZE && LengthAt(mem'[s.page], s.pos) == FrameLength(req)
      && mem'[s.page] == AfterFields(s, req)
  {
    hide LegalAll, ApplyAll, MemAfter, FramePatches, Legal;
    FieldsStored(s, req);
    ProgramMem(s, PutAll(s.page, FramePatches(s.pos, req)));
    MemAfterConcat(base, trace, PutAll(s.page, FramePatches(s.pos, req)));
  }

  lemma FieldsFrames(s: Sys, req: Request)
    requires AtWritable(s) && ValidRequest(req)
    ensures OpenPageOrBody(AfterFields(s, req), s.pos)
    ensures Frames(AfterFields(s, req), PAGE_INIT) == Frames(s.mem[s.page], PAGE_INIT)
  {
    hide Stamped;
    FramePatchesFit(s.pos, req);
    PatchKeepsFrames(s.mem[s.page], FramePatches(s.pos, req));
  }

  ghost predicate OpenPageOrBody(pg: PageBytes, pos: nat) {
    |pg| == PAGE_SIZE && Chain(pg, PAGE_INIT) && pos == ScanEnd(pg, PAGE_INIT)
  }

  /** The page after its frame has been published: the frame can be passed, and one more is counted. */
  lemma PublishedPage(pg: PageBytes, pos: nat, req: Request)
    requires OpenPageOrBody(pg, pos) && Writable(pos) && ValidRequest(req) && Imaged(pg, pos, req)
    ensures var pg' := pg[pos + FrameLength(req) := RAW][pos := WRITTEN];
      && Chain(pg', PAGE_INIT) && Chain(pg', pos) && pg'[pos] == WRITTEN && LengthAt(pg', pos) == FrameLength(req)
      && |Frames(pg', PAGE_INIT)| == |Frames(pg, PAGE_INIT)| + 1
  {
    hide LengthAt, Imaged, ScanEnd, Frames;
    var pg1 := pg[pos + FrameLength(req) := RAW];
    MarkedPage(pg, pos, req);
    StoreElsewhere(pg, PAGE_INIT, pos + FrameLength(req), RAW);
    PublishedMarked(pg1, pos, FrameLength(req));
  }

  lemma PublishedMarked(pg: PageBytes, pos: nat, len: nat)
    requires OpenPageOrBody(pg, pos) && CommitReady(pg, pos) && LengthAt(pg, pos) == len
    ensures var pg' := pg[pos := WRITTEN];
      && Chain(pg', PAGE_INIT) && Chain(pg', pos) && LengthAt(pg', pos) == len
      && |Frames(pg', PAGE_INIT)| == |Frames(pg, PAGE_INIT)| + 1
  {
    hide LengthAt, ScanEnd, Frames;
    StoreWritten(pg, PAGE_INIT, pos);
    LengthKept(pg, pos, pos, WRITTEN);
    assert Chain(pg[pos := WRITTEN], pos + len);
  }

  /** The memory after a frame has been stored. */
  lemma FrameStored(base: Mem, trace: seq<Event>, s: Sys, req: Request)
    requires AtWritable(s) && ValidRequest(req) && req.nano >= s.clock && s.page + 1 !in s.mem
    requires s.mem == MemAfter(base, trace)
    ensures var s' := Sys(MemAfter(base, trace + FrameProgram(s.page, s.pos, req)), s.page, s.pos + FrameLength(req), req.nano);
      && Inv(s') && Appended(s, s', req) && s'.page + 1 !in s'.mem && s'.page in s'.mem
      && s'.mem[s.page] == AfterFields(s, req)[s.pos + FrameLength(req) := RAW][s.pos := WRITTEN]
  {
    hide Shape, Stamped, LegalAll, ApplyAll, Legal, FramePatches, Says, Log, Chain, Frames, FrameLength;
    FrameRun(s, req);
    ProgramMem(s, FrameProgram(s.page, s.pos, req));
    MemAfterConcat(base, trace, FrameProgram(s.page, s.pos, req));
    FieldsInMemory(base, trace, s, req);
    var fields := PutAll(s.page, FramePatches(s.pos, req));
    var e1, e2 := Put(s.page, s.pos + FrameLength(req), RAW), Put(s.page, s.pos, WRITTEN);
    assert trace + FrameProgram(s.page, s.pos, req) == ((trace + fields) + [e1]) + [e2];
    assert (((trace + fields) + [e1]) + [e2])[..|trace + fields| + 1] == (trace + fields) + [e1];
    assert ((trace + fields) + [e1])[..|trace + fields|] == trace + fields;
  }

  /** The newest page file of a journal is the writer's page, or the one after it; a new journal starts at page 1. */
  lemma NewestListed(s: Sys, nums: seq<nat>)
    requires Inv(s) && IsListing(s.mem, nums)
    ensures (if |nums| > 0 then nums[|nums| - 1] else 1) == if s.page == 0 then 1 else Newest(s)
  {
    hide Stamped, Chain, Poised;
    ListedEnds(s, nums);
    if s.page == 0 && nums != [] {
      assert nums[|nums| - 1] in s.mem;
    }
  }

  /** Loading the page ahead stores at most its header. */
  lemma AheadStored(base: Mem, trace: seq<Event>, s: Sys, t: Turning)
    requires Inv(s) && InWindow(s) && ValidTurning(t, s.clock) && s.mem == MemAfter(base, trace)
    ensures var mem := MemAfter(base, trace + WriterLoad(s.mem, s.page + 1, t));
      && Inv(s.(mem := mem)) && Log(s.(mem := mem)) == Log(s)
      && s.page + 1 in mem && |mem[s.page + 1]| == PAGE_SIZE && mem[s.page + 1][PAGE_INIT] == RAW
      && Chain(mem[s.page + 1], PAGE_INIT) && ScanEnd(mem[s.page + 1], PAGE_INIT) == PAGE_INIT && Frames(mem[s.page + 1], PAGE_INIT) == []
  {
    hide Stamped, LegalAll, ApplyAll, LogFrom, LoadProgram, Poised;
    var evs := WriterLoad(s.mem, s.page + 1, t);
    if NextInited(s) {
      assert trace + [] == trace;
      assert s.(mem := MemAfter(base, trace + evs)) == s;
    } else {
      LoadRun(s, t);
      ProgramMem(s, evs);
      MemAfterConcat(base, trace, evs);
      assert ApplyAll(s, evs) == s.(mem := MemAfter(base, trace + evs));
    }
    EmptyFrom(MemAfter(base, trace + evs)[s.page + 1]);
    FreshEnd(MemAfter(base, trace + evs)[s.page + 1]);
  }

  /** The state after the page has been loaded for appending. */
  ghost function Opened(base: Mem, trace: seq<Event>, s: Sys, t: Turning): Sys {
    var mem := MemAfter(base, trace + WriterLoad(s.mem, if s.page == 0 then 1 else s.page, t));
    if s.page == 0 then Sys(mem, 1, PAGE_INIT, t.startNano) else s
  }

  lemma OpenStored(base: Mem, trace: seq<Event>, s: Sys, t: Turning)
    requires Inv(s) && ValidTurning(t, s.clock) && s.mem == MemAfter(base, trace) && (1 <= s.page ==> s.page + 1 !in s.mem)
    ensures var page := if s.page == 0 then 1 else s.page;
      && WriterLoad(s.mem, page, t) == (if s.page == 0 then OpenProgram(1 in s.mem, t) else [])
      && var s' := Opened(base, trace, s, t);
         && s'.mem == MemAfter(base, trace + WriterLoad(s.mem, page, t)) && s'.page == page
         && Inv(s') && Log(s') == Log(s) && s'.page + 1 !in s'.mem && s'.page in s'.mem
         && Chain(s'.mem[page], PAGE_INIT) && s'.pos == ScanEnd(s'.mem[page], PAGE_INIT)
  {
    hide Stamped, LegalAll, ApplyAll, LogFrom, LoadProgram, Poised, Versioned, Frames, MemAfter;
    if s.page == 0 {
      var evs := OpenProgram(1 in s.mem, t);
      OpenRun(s, t);
      ProgramMem(s, evs);
      MemAfterConcat(base, trace, evs);
      assert [] + LoadProgram(1, t) == LoadProgram(1, t);
    } else {
      assert trace + [] == trace;
    }
  }

  lemma ErrorEvents(p: nat, pos: nat, req: Request)
    ensures PutAll(p, ErrorPatches(pos, req)) ==
      if req.errorId != 0 && req.errorMsg.Some? then Puts(p, pos + BASIC_HEADER, Padded(req.errorMsg.value)) else []
  {
    hide Puts, Padded;
    if ErrorPatches(pos, req) != [] {
      assert ErrorPatches(pos, req)[1..] == [];
    }
  }

  /** A frame's stores, field by field. */
  lemma FrameEvents(p: nat, pos: nat, req: Request)
    ensures PutAll(p, FramePatches(pos, req)) ==
      Puts(p, pos + F_SOURCE, Le(req.source, 2)) + Puts(p, pos + F_MSG_TYPE, Le(req.msgType, 2))
      + Puts(p, pos + F_LAST_FLAG, [req.lastFlag]) + Puts(p, pos + F_REQ_ID, Le(req.requestId, 4))
      + (Puts(p, pos + F_ERR_ID, Le(req.errorId, 4)) + PutAll(p, ErrorPatches(pos, req))
         + Puts(p, pos + HeaderLength(req), req.data) + Puts(p, pos + F_LENGTH, Le(FrameLength(req), 4)))
      + Puts(p, pos + F_EXTRA_NANO, Le(req.extraNano, 8)) + Puts(p, pos + F_NANO, Le(req.nano, 8))
  {
    hide Puts, Le, ErrorPatches, HeaderLength, FrameLength;
    var a := [Patch(pos + F_SOURCE, Le(req.source, 2)), Patch(pos + F_MSG_TYPE, Le(req.msgType, 2)),
              Patch(pos + F_LAST_FLAG, [req.lastFlag]), Patch(pos + F_REQ_ID, Le(req.requestId, 4))];
    var b := [Patch(pos + F_ERR_ID, Le(req.errorId, 4))];
    var c := ErrorPatches(pos, req);
    var d := [Patch(pos + HeaderLength(req), req.data), Patch(pos + F_LENGTH, Le(FrameLength(req), 4)),
              Patch(pos + F_EXTRA_NANO, Le(req.extraNano, 8)), Patch(pos + F_NANO, Le(req.nano, 8))];
    assert FramePatches(pos, req) == a + (b + (c + d));
    PutAllConcat(p, a, b + (c + d));
    PutAllConcat(p, b, c + d);
    PutAllConcat(p, c, d);
    FourPatches(p, a);
    FourPatches(p, d);
    assert b[1..] == [];
  }

  class JournalWriter {
    const journal: Journal

    constructor (journal: Journal)
      requires journal.isWriting
      ensures this.journal == journal
    {
      this.journal := journal;
    }

    method StoreHead(frame: Frame, req: Request)
      requires ValidRequest(req) && frame.Fits(FrameLength(req))
      modifies frame.files, frame.files.Arrays
      ensures frame.files.Valid() && frame.files.Arrays == old(frame.files.Arrays) && frame.files.pages == old(frame.files.pages)
      ensures frame.files.trace == old(frame.files.trace)
        + (Puts(frame.page, frame.address + F_SOURCE, Le(req.source, 2)) + Puts(frame.page, frame.address + F_MSG_TYPE, Le(req.msgType, 2))
           + Puts(frame.page, frame.address + F_LAST_FLAG, [req.lastFlag]) + Puts(frame.page, frame.address + F_REQ_ID, Le(req.requestId, 4)))
    {
      hide Puts, Le, PageFiles.Valid, MemAfter;
      frame.SetField(F_SOURCE, 2, req.source);
      frame.SetField(F_MSG_TYPE, 2, req.msgType);
      frame.files.PutBytes(frame.page, frame.address + F_LAST_FLAG, [req.lastFlag]);
      frame.SetField(F_REQ_ID, 4, req.requestId);
    }

    /** Stores the fields of a frame in program order. */
    method StoreFields(frame: Frame, req: Request)
      requires ValidRequest(req) && frame.Fits(FrameLength(req))
      modifies frame.files, frame.files.Arrays
      ensures frame.files.Valid() && frame.files.Arrays == old(frame.files.Arrays) && frame.files.pages == old(frame.files.pages)
      ensures frame.files.trace == old(frame.files.trace) + PutAll(frame.page, FramePatches(frame.address, req))
    {
      hide Puts, Le, PageFiles.Valid, MemAfter, FramePatches, PutAll, ErrorPatches, Padded;
      FrameEvents(frame.page, frame.address, req);
      ErrorEvents(frame.page, frame.address, req);
      StoreHead(frame, req);
      frame.SetErrorData(req.errorId, req.errorMsg, req.data);
      frame.SetField(F_EXTRA_NANO, 8, req.extraNano);
      frame.SetField(F_NANO, 8, req.nano);
    }

    /** Stores one frame at the cursor and moves the cursor over it. */
    method StoreFrame(req: Request, ghost clock: int)
      requires journal.Writing(clock) && Writable(journal.curPage.position) && ValidRequest(req) && req.nano >= clock
      modifies journal.files, journal.files.Arrays, journal.curPage
      ensures journal.Writing(req.nano) && journal.files.Arrays == old(journal.files.Arrays)
      ensures journal.files.trace == old(journal.files.trace)
        + FrameProgram(old(journal.curPage.pageNum), old(journal.curPage.position), req)
      ensures Appended(old(journal.State(clock)), journal.State(req.nano), req)
    {
      hide Shape, Stamped, Appended, MemAfter, FramePatches, Says, Log, Chain, Frames, ScanEnd, PageFiles.Valid, Imaged, LengthAt, PutAll, Poised, Versioned;
      var files, cur := journal.files, journal.curPage;
      ghost var s := journal.State(clock);
      ghost var trace := files.trace;
      CursorInPage(s);
      FieldsInMemory(files.base, trace, s, req);
      FrameStored(files.base, trace, s, req);
      FieldsFrames(s, req);
      FrameImaged(s.mem[s.page], s.pos, req);
      PublishedPage(AfterFields(s, req), s.pos, req);
      PagesMatch(files);
      var frame := new Frame(files, cur.pageNum, cur.position);
      StoreFields(frame, req);
      frame.SetStatusWritten();
      PagesMatch(files);
      assert files.trace == trace + FrameProgram(s.page, s.pos, req);
      cur.PassFrame();
    }

    /** Appends one frame: the log grows by exactly what was asked, whatever page it lands on. */
    method WriteFrameFull(t: Turning, req: Request, ghost clock: int) returns (nano: int)
      requires journal.Writing(clock) && ValidTurning(t, clock) && ValidRequest(req) && req.nano >= t.startNano
      modifies journal, journal.files, journal.files.Arrays, journal.curPage
      ensures fresh(journal.files.Arrays - old(journal.files.Arrays))
      ensures nano == req.nano && journal.Writing(nano)
      ensures journal.files.trace == old(journal.files.trace)
        + AppendProgram(old(journal.curPage.pageNum), old(journal.curPage.position), old(journal.curPage.frameNum), t, req)
      ensures Appended(old(journal.State(clock)), journal.State(nano), req)
    {
      hide Shape, Stamped, MemAfter, FrameProgram, TurnProgram, Says, Log, Chain, Frames, ScanEnd, PageFiles.Valid;
      var address, clock' := journal.LocateForWriting(t, clock);
      StoreFrame(req, clock');
      nano := req.nano;
    }

    /** Loads the newest page and moves to the end of its frames. If the writer before stopped between creating
        that page and closing the one before, this is the new page's first frame, and the log is left as it is. */
    method SeekLastForWriting(t: Turning, ghost s: Sys) returns (ghost clock: int)
      requires journal.files.Valid() && journal.files.Mem() == s.mem && Inv(s) && ValidTurning(t, s.clock)
      requires journal.isWriting
      modifies journal, journal.files, journal.files.Arrays
      ensures fresh(journal.files.Arrays - old(journal.files.Arrays)) && journal.curPage != null && fresh(journal.curPage)
      ensures !InWindow(s) ==>
        && journal.Writing(clock) && Log(journal.State(clock)) == Log(s) && ValidTurning(t, clock)
        && journal.files.trace == old(journal.files.trace) + (if s.page == 0 then OpenProgram(1 in s.mem, t) else [])
        && journal.curPage.pageNum == (if s.page == 0 then 1 else s.page)
        && journal.curPage.position == (if s.page == 0 then PAGE_INIT else s.pos)
        && (1 <= s.page ==>
              s.page in s.mem && Chain(s.mem[s.page], PAGE_INIT) && journal.curPage.frameNum == |Frames(s.mem[s.page], PAGE_INIT)|)
      ensures InWindow(s) ==>
        && journal.AtFreshPage() && journal.curPage.pageNum == s.page + 1 && clock == s.clock
        && journal.files.trace == old(journal.files.trace) + WriterLoad(s.mem, s.page + 1, t)
        && Inv(s.(mem := journal.files.Mem())) && Log(s.(mem := journal.files.Mem())) == Log(s)
    {
      hide Shape, Stamped, MemAfter, OpenProgram, WriterLoad, Says, Log, PageFiles.Valid, Chain, Frames, ScanEnd, Poised, Versioned, IsListing, Throws;
      var nums := GetPageNums(journal.files);
      var last := if |nums| > 0 then nums[|nums| - 1] else 1;
      NewestListed(s, nums);
      NothingThrown(s);
      var page := LoadForWriting(journal.files, last, t);
      if InWindow(s) {
        AheadStored(journal.files.base, old(journal.files.trace), s, t);
        clock := s.clock;
      } else {
        OpenStored(journal.files.base, old(journal.files.trace), s, t);
        clock := Opened(journal.files.base, old(journal.files.trace), s, t).clock;
      }
      PagesMatch(journal.files);
      page.PassWrittenFrame();
      journal.curPage := page;
      journal.expired := false;
    }

    /** Opens the journal for appending: at the end of the newest page, with room for a frame. */
    method SeekEnd(t: Turning, ghost s: Sys) returns (ghost clock: int)
      requires journal.files.Valid() && journal.files.Mem() == s.mem && Inv(s) && ValidTurning(t, s.clock)
      requires journal.isWriting
      modifies journal, journal.files, journal.files.Arrays
      ensures fresh(journal.files.Arrays - old(journal.files.Arrays)) && journal.curPage != null && fresh(journal.curPage)
      ensures !InWindow(s) ==>
        && journal.Writing(clock) && Writable(journal.curPage.position) && Log(journal.State(clock)) == Log(s)
        && (s.page == 0 ==> journal.files.trace == old(journal.files.trace) + OpenProgram(1 in s.mem, t))
        && (1 <= s.page ==>
              && s.page in s.mem && Chain(s.mem[s.page], PAGE_INIT)
              && journal.files.trace == old(journal.files.trace) + LocateProgram(s.page, s.pos, |Frames(s.mem[s.page], PAGE_INIT)|, t))
        && (1 <= s.page && Writable(s.pos) ==> journal.curPage.pageNum == s.page && journal.curPage.position == s.pos)
      ensures InWindow(s) ==>
        && journal.AtFreshPage() && journal.curPage.pageNum == s.page + 1
        && journal.files.trace == old(journal.files.trace) + WriterLoad(s.mem, s.page + 1, t)
        && Inv(s.(mem := journal.files.Mem())) && Log(s.(mem := journal.files.Mem())) == Log(s)
    {
      hide Shape, Stamped, MemAfter, OpenProgram, TurnProgram, WriterLoad, Says, Log, PageFiles.Valid, Chain, Frames, ScanEnd, Poised;
      clock := SeekLastForWriting(t, s);
      var address;
      address, clock := journal.LocateForWriting(t, clock);
    }
  }
}
