/** Seeking to a time: the page chosen by start times and the scan inside it agree with reading the whole log. */
module JournalSeek {
  import opened Bytes
  import opened Parts
  import opened JournalLayout
  import opened JournalProtocol
  import opened JournalInvariant
  import opened JournalReader

  /** The page numbers found in the directory, in ascending order. */
  ghost predicate IsListing(mem: Mem, nums: seq<nat>) {
    && (forall i :: 0 <= i < |nums| ==> nums[i] in mem)
    && (forall k :: k in mem ==> k in nums)
    && (forall i, j :: 0 <= i < j < |nums| ==> nums[i] < nums[j])
  }

  ghost predicate Present(mem: Mem, nums: seq<nat>) {
    forall i :: 0 <= i < |nums| ==> nums[i] in mem && |mem[nums[i]]| == PAGE_SIZE
  }

  /** Index of the newest page that started before `t`, or -1. */
  ghost function IndexForTime(mem: Mem, nums: seq<nat>, t: int): (i: int)
    requires Present(mem, nums)
    ensures -1 <= i < |nums|
    ensures i >= 0 ==> StartNano(mem[nums[i]]) < t
    ensures forall j :: i < j < |nums| ==> StartNano(mem[nums[j]]) >= t
    decreases |nums|
  {
    if nums == [] then -1
    else if StartNano(mem[nums[|nums| - 1]]) < t then |nums| - 1
    else
      assert forall j :: 0 <= j < |nums| - 1 ==> nums[..|nums| - 1][j] == nums[j];
      IndexForTime(mem, nums[..|nums| - 1], t)
  }

  /** The newest page that started before `t`, or page 1. */
  ghost function PageForTime(mem: Mem, nums: seq<nat>, t: int): nat
    requires Present(mem, nums)
  {
    var i := IndexForTime(mem, nums, t);
    if i < 0 then 1 else nums[i]
  }

  /** The three ways to reposition a reader. */
  datatype Seek = FromFirst | ToLast | ToTime(t: int)

  ghost function SoughtPage(mem: Mem, nums: seq<nat>, seek: Seek): nat
    requires Present(mem, nums)
  {
    match seek
    case FromFirst => if |nums| > 0 then nums[0] else 1
    case ToLast => if |nums| > 0 then nums[|nums| - 1] else 1
    case ToTime(t) => PageForTime(mem, nums, t)
  }

  ghost function SoughtPos(pg: PageBytes, seek: Seek): nat
    requires Chain(pg, PAGE_INIT)
  {
    match seek
    case FromFirst => PAGE_INIT
    case ToLast => ScanEnd(pg, PAGE_INIT)
    case ToTime(t) => ScanToTime(pg, PAGE_INIT, t)
  }

  /** Where a seek leaves a reader: without a page it can load, the reader is expired. */
  ghost function SoughtPlace(mem: Mem, nums: seq<nat>, seek: Seek): Place
    requires Present(mem, nums)
  {
    var p := SoughtPage(mem, nums, seek);
    if Loadable(mem, p) && Chain(mem[p], PAGE_INIT) then Polling(p, SoughtPos(mem[p], seek)) else Expired
  }

  /** How many frames at the front of the log are stamped before `t`. */
  ghost function LeadingBefore(log: seq<Raw>, t: int): nat
    decreases |log|
  {
    if log != [] && NanoOf(log[0]) < t then 1 + LeadingBefore(log[1..], t) else 0
  }

  ghost predicate AllBefore(log: seq<Raw>, t: int) {
    forall i :: 0 <= i < |log| ==> NanoOf(log[i]) < t
  }

  lemma {:induction false} LeadingSplit(a: seq<Raw>, b: seq<Raw>, t: int)
    requires AllBefore(a, t) && AllAtLeast(b, t)
    ensures LeadingBefore(a + b, t) == |a|
    decreases |a|
  {
    if a == [] {
      assert a + b == b;
    } else {
      assert (a + b)[1..] == a[1..] + b;
      LeadingSplit(a[1..], b, t);
    }
  }

  /** For the pages of a settled journal: the chosen page started before `t` unless none did, and all later
      pages started at `t` or after. */
  lemma ChosenPage(mem: Mem, n: nat, nums: seq<nat>, t: int)
    requires 1 <= n && (forall k :: k in mem <==> 1 <= k <= n) && (forall k :: k in mem ==> |mem[k]| == PAGE_SIZE)
    requires IsListing(mem, nums)
    ensures Present(mem, nums)
    ensures var p := PageForTime(mem, nums, t);
      && 1 <= p <= n && (StartNano(mem[p]) < t || (p == 1 && StartNano(mem[1]) >= t))
      && forall k: nat :: p < k <= n ==> StartNano(mem[k]) >= t
  {
    hide StartNano;
    var i := IndexForTime(mem, nums, t);
    var p := PageForTime(mem, nums, t);
    forall k: nat | 1 <= k <= n && (i < 0 || k > p) ensures StartNano(mem[k]) >= t {
      assert k in mem && k in nums;
      var j :| 0 <= j < |nums| && nums[j] == k;
    }
  }

  /** The frames skipped by a scan to `t`. */
  ghost function Skipped(pg: PageBytes, pos: nat, t: int): seq<Raw>
    requires Chain(pg, pos)
    decreases |pg| - pos
  {
    if pg[pos] == WRITTEN && NanoAt(pg, pos) < t then
      var next := pos + LengthAt(pg, pos);
      assert Chain(pg, next);
      [pg[pos + 1..next]] + Skipped(pg, next, t)
    else []
  }

  lemma {:induction false} ScanSplits(pg: PageBytes, pos: nat, t: int)
    requires Chain(pg, pos)
    ensures Frames(pg, pos) == Skipped(pg, pos, t) + Frames(pg, ScanToTime(pg, pos, t))
    ensures AllBefore(Skipped(pg, pos, t), t) && |Skipped(pg, pos, t)| == CountToTime(pg, pos, t)
    decreases |pg| - pos
  {
    hide NanoAt, LengthAt, NanoOf, ScanEnd;
    var e := ScanToTime(pg, pos, t);
    if pg[pos] == WRITTEN && NanoAt(pg, pos) < t {
      var next := pos + LengthAt(pg, pos);
      assert Chain(pg, next);
      var raw := pg[pos + 1..next];
      NanoOfRaw(pg, pos, next);
      ScanSplits(pg, next, t);
      Regroup([raw], Skipped(pg, next, t), Frames(pg, e));
      assert Frames(pg, pos) == [raw] + Frames(pg, next) && Skipped(pg, pos, t) == [raw] + Skipped(pg, next, t);
    } else {
      assert Skipped(pg, pos, t) == [] && e == pos;
    }
  }

  lemma ScanStops(pg: PageBytes, pos: nat, t: int)
    requires Chain(pg, pos)
    ensures var fs := Frames(pg, ScanToTime(pg, pos, t)); fs != [] ==> NanoOf(fs[0]) >= t
  {
    hide NanoAt, LengthAt, NanoOf;
    var e := ScanToTime(pg, pos, t);
    if pg[e] == WRITTEN {
      var next := e + LengthAt(pg, e);
      assert Chain(pg, next);
      NanoOfRaw(pg, e, next);
    }
  }

  /** Everything before the seek position is earlier than `t`; everything after it is not. */
  ghost predicate Parted(before: seq<Raw>, after: seq<Raw>, log: seq<Raw>, t: int) {
    before + after == log && AllBefore(before, t) && AllAtLeast(after, t)
  }

  lemma PartedLog(log: seq<Raw>, before: seq<Raw>, after: seq<Raw>, t: int)
    requires Nondecreasing(log) && before + after == log && AllBefore(before, t)
    requires after != [] ==> NanoOf(after[0]) >= t
    ensures Parted(before, after, log, t) && |before| == LeadingBefore(log, t)
  {
    assert forall i :: 0 <= i < |after| ==> after[i] == log[|before| + i];
    LeadingSplit(before, after, t);
  }

  // ---------------------------------------------------------------- which page a seek finds

  /** Every page a reader can load holds well-formed frames and no other frame version. */
  ghost predicate Readable(mem: Mem) {
    forall k :: k in mem && Loadable(mem, k) ==> Chain(mem[k], PAGE_INIT) && !VersionMismatch(mem[k])
  }

  /** A journal kept by its writer can be read, in every state of every run. */
  lemma KeptReadable(s: Sys)
    requires Inv(s)
    ensures Readable(s.mem)
  {
    hide Stamped, VersionMismatch;
    forall k | k in s.mem ensures !VersionMismatch(s.mem[k]) { VersionMatches(s.mem[k]); }
  }

  /** The next page file has been created, its start time reads as earlier than `t`, and its header is raw. */
  ghost predicate RawAhead(s: Sys, t: int) {
    s.page + 1 in s.mem && |s.mem[s.page + 1]| == PAGE_SIZE && !NextInited(s) && StartNano(s.mem[s.page + 1]) < t
  }

  /** The newest page file: the one the writer is about to turn to, if it is there. */
  ghost function Newest(s: Sys): nat {
    if s.page + 1 in s.mem then s.page + 1 else s.page
  }

  lemma ListedPage(s: Sys, nums: seq<nat>, t: int)
    requires Inv(s) && 1 <= s.page && IsListing(s.mem, nums)
    ensures Present(s.mem, nums)
    ensures var p := PageForTime(s.mem, nums, t);
      && 1 <= p <= Newest(s) && p in s.mem && |s.mem[p]| == PAGE_SIZE
      && (StartNano(s.mem[p]) < t || (p == 1 && StartNano(s.mem[1]) >= t))
      && (forall k: nat :: p < k <= s.page ==> k in s.mem && |s.mem[k]| == PAGE_SIZE && StartNano(s.mem[k]) >= t)
      && (p == s.page + 1 <==> s.page + 1 in s.mem && StartNano(s.mem[s.page + 1]) < t)
  {
    hide Stamped, ClosedPage, OpenPage, Chain, StartNano, PageForTime;
    ChosenPage(s.mem, Newest(s), nums, t);
  }

  /** A seek to a time finds no page, and the reader expires, exactly when the journal has no page yet or the
      next page file is there, raw, with a start time that reads as earlier. */
  lemma SeekFails(s: Sys, nums: seq<nat>, t: int)
    requires Inv(s) && IsListing(s.mem, nums)
    ensures Present(s.mem, nums)
    ensures LoadPage(s.mem, PageForTime(s.mem, nums, t)) == NoPage <==> s.page == 0 || RawAhead(s, t)
  {
    hide Stamped, ClosedPage, OpenPage, Chain, StartNano;
    if 1 <= s.page {
      hide PageForTime;
      ListedPage(s, nums, t);
    }
  }

  /** It does fail: in every turn of the page, right after the new file appears, for every positive time. */
  lemma SeekDuringTurn(s: Sys, nums: seq<nat>, t: int)
    requires Inv(s) && 1 <= s.page && s.page + 1 !in s.mem && 0 < t
    requires IsListing(s.mem[s.page + 1 := ZeroPage()], nums)
    ensures Legal(s, Create(s.page + 1))
    ensures var mem := Apply(s, Create(s.page + 1)).mem;
      && Present(mem, nums) && PageForTime(mem, nums, t) == s.page + 1
      && LoadPage(mem, PageForTime(mem, nums, t)) == NoPage && SoughtPlace(mem, nums, ToTime(t)) == Expired
  {
    hide Stamped, ClosedPage, OpenPage, StartNano, PageForTime;
    CreateKeeps(s, s.page + 1);
    ZeroStart();
    ListedPage(Apply(s, Create(s.page + 1)), nums, t);
  }

  lemma ZeroStart()
    ensures StartNano(ZeroPage()) == 0
  {
    hide Signed, LeVal;
    var zeros := ZeroPage()[H_START_NANO..H_START_NANO + 8];
    LeValZeros(zeros);
    SignedZero();
  }

  lemma SignedZero()
    ensures Signed(0, 8) == 0
  {
    SpanValues();
  }

  lemma {:induction false} LeValZeros(bs: seq<byte>)
    requires forall i :: 0 <= i < |bs| ==> bs[i] == 0
    ensures LeVal(bs) == 0
    decreases |bs|
  {
    if bs != [] {
      LeValZeros(bs[1..]);
    }
  }

  // ---------------------------------------------------------------- where it puts the cursor

  /** Seeking to `t`, when it finds a page, puts the cursor where a scan of the whole log would: after every
      frame stamped before `t` and before every other frame, wherever the next frame lies. The cursor may be on
      the next page before the writer has moved there; then the whole log is earlier. */
  lemma SeekAgreesWithScan(s: Sys, nums: seq<nat>, t: int)
    requires Inv(s) && IsListing(s.mem, nums) && 1 <= s.page && !RawAhead(s, t)
    ensures Present(s.mem, nums)
    ensures var p := PageForTime(s.mem, nums, t);
      && 1 <= p <= s.page + 1 && Loadable(s.mem, p) && PagesOK(s.mem, 1, p)
      && var e := ScanToTime(s.mem[p], PAGE_INIT, t);
      && PagesOK(s.mem, p + 1, s.page)
      && (if p <= s.page then OnTrack(s.mem, s.page, p, e) else e == PAGE_INIT && s.mem[p][e] == RAW)
      && var before, after := Earlier(s.mem, p) + Skipped(s.mem[p], PAGE_INIT, t), Frames(s.mem[p], e) + LogFrom(s.mem, p + 1, s.page);
         Parted(before, after, Log(s), t) && |before| == LeadingBefore(Log(s), t)
  {
    hide ClosedPage, OpenPage, NanoOf, StartNano, PageForTime, Skipped, ScanToTime, Stamped, Chain, Frames, LogFrom;
    ListedPage(s, nums, t);
    var p := PageForTime(s.mem, nums, t);
    if p <= s.page {
      SeekParts(s.mem, s.page, s.clock, p, t);
    } else {
      SeekAhead(s, t);
    }
  }

  /** With the cursor at the front of the next page the whole log is behind it. */
  lemma SeekAhead(s: Sys, t: int)
    requires Inv(s) && 1 <= s.page && NextInited(s) && StartNano(s.mem[s.page + 1]) < t
    ensures var p := s.page + 1; var pg := s.mem[p];
      && Chain(pg, PAGE_INIT) && ScanToTime(pg, PAGE_INIT, t) == PAGE_INIT && pg[PAGE_INIT] == RAW
      && Skipped(pg, PAGE_INIT, t) == [] && Frames(pg, PAGE_INIT) == []
      && PagesOK(s.mem, 1, p) && Earlier(s.mem, p) == Log(s) && PagesOK(s.mem, p + 1, s.page) && LogFrom(s.mem, p + 1, s.page) == []
      && Parted(Log(s) + [], [] + [], Log(s), t) && |Log(s) + []| == LeadingBefore(Log(s), t)
  {
    hide ClosedPage, StartNano, NanoOf;
    assert Log(s) + [] == Log(s);
    PartedLog(Log(s), Log(s) + [], []  + [], t);
  }

  // ---------------------------------------------------------------- a reader after a seek

  /** The frames a seek passes over on the page it loads. */
  ghost function SkippedBy(pg: PageBytes, seek: Seek): seq<Raw>
    requires Chain(pg, PAGE_INIT)
  {
    match seek
    case FromFirst => []
    case ToLast => Frames(pg, PAGE_INIT)
    case ToTime(t) => Skipped(pg, PAGE_INIT, t)
  }

  ghost function PassedBy(mem: Mem, nums: seq<nat>, seek: Seek): seq<Raw>
    requires Present(mem, nums)
  {
    var p := SoughtPage(mem, nums, seek);
    if 1 <= p && Loadable(mem, p) && PagesOK(mem, 1, p) then Earlier(mem, p) + SkippedBy(mem[p], seek) else []
  }

  ghost function Sought(mem: Mem, nums: seq<nat>, seek: Seek): Reader
    requires Present(mem, nums)
  {
    Reader(SoughtPlace(mem, nums, seek), PassedBy(mem, nums, seek), [])
  }

  /** The oldest and the newest page file. */
  lemma ListedEnds(s: Sys, nums: seq<nat>)
    requires Inv(s) && IsListing(s.mem, nums)
    ensures Present(s.mem, nums)
    ensures 1 <= s.page ==> nums != [] && nums[0] == 1 && nums[|nums| - 1] == Newest(s)
  {
    hide Stamped, Chain, ClosedPage, OpenPage;
    if 1 <= s.page {
      assert 1 in s.mem && 1 in nums && Newest(s) in s.mem && Newest(s) in nums;
    }
  }

  /** A seek to the first page or past the last written frame, like one to a time, leaves the reader at a frame
      of the log, with every frame before that one passed over. */
  lemma SoughtConsistent(s: Sys, nums: seq<nat>, seek: Seek)
    requires Inv(s) && IsListing(s.mem, nums)
    ensures Present(s.mem, nums) && Consistent(s.mem, s.page, Sought(s.mem, nums, seek))
  {
    hide Stamped, ClosedPage, OpenPage, Chain, Frames, LogFrom, StartNano, PageForTime, ScanToTime, Skipped, ScanEnd;
    ListedEnds(s, nums);
    var r := Sought(s.mem, nums, seek);
    assert r.skipped + [] == r.skipped;
    if s.page == 0 {
      NothingSought(s, nums, seek);
    } else {
      match seek
      case FromFirst => FirstSought(s);
      case ToLast => EndSought(s, nums);
      case ToTime(t) => TimeSought(s, nums, t);
    }
  }

  /** What a seek that finds a page passes over: nothing, the whole log, or its frames stamped earlier. */
  lemma SoughtPast(s: Sys, nums: seq<nat>, seek: Seek)
    requires Inv(s) && IsListing(s.mem, nums) && 1 <= s.page && Present(s.mem, nums) && SoughtPlace(s.mem, nums, seek) != Expired
    ensures var past := Sought(s.mem, nums, seek).Past();
      match seek
      case FromFirst => past == []
      case ToLast => past == Log(s)
      case ToTime(t) => past <= Log(s) && AllBefore(past, t) && AllAtLeast(Log(s)[|past|..], t)
  {
    hide Stamped, ClosedPage, OpenPage, Chain, Frames, LogFrom, StartNano, PageForTime, ScanToTime, Skipped, ScanEnd, NanoOf;
    ListedEnds(s, nums);
    var r := Sought(s.mem, nums, seek);
    assert r.Past() == r.skipped;
    match seek
    case FromFirst => NothingBefore(s.mem);
    case ToLast =>
      LastSought(s);
      LogEnds(s);
    case ToTime(t) =>
      SeekFails(s, nums, t);
      SeekAgreesWithScan(s, nums, t);
      var p := PageForTime(s.mem, nums, t);
      var after := Frames(s.mem[p], ScanToTime(s.mem[p], PAGE_INIT, t)) + LogFrom(s.mem, p + 1, s.page);
      assert (r.skipped + after)[|r.skipped|..] == after;
  }

  lemma NothingBefore(mem: Mem)
    ensures PagesOK(mem, 1, 0) && LogFrom(mem, 1, 0) == []
  {
  }

  lemma LogEnds(s: Sys)
    requires Inv(s) && 1 <= s.page
    ensures Log(s) == Earlier(s.mem, s.page) + Frames(s.mem[s.page], PAGE_INIT)
  {
    hide Stamped, Chain, Frames;
    LogSnoc(s.mem, 1, s.page);
  }

  lemma NothingSought(s: Sys, nums: seq<nat>, seek: Seek)
    requires Inv(s) && s.page == 0 && Present(s.mem, nums)
    ensures Sought(s.mem, nums, seek) == Reader(Expired, [], [])
  {
    hide Stamped;
  }

  lemma FirstSought(s: Sys)
    requires Inv(s) && 1 <= s.page
    ensures At(s.mem, s.page, 1, PAGE_INIT, Earlier(s.mem, 1) + []) && Loadable(s.mem, 1)
  {
    hide Stamped, Chain, Frames;
    assert Log(s) == Frames(s.mem[1], PAGE_INIT) + LogFrom(s.mem, 2, s.page);
  }

  lemma LastSought(s: Sys)
    requires Inv(s) && 1 <= s.page
    ensures Loadable(s.mem, s.page) && At(s.mem, s.page, s.page, s.pos, Earlier(s.mem, s.page) + Frames(s.mem[s.page], PAGE_INIT))
    ensures s.page + 1 in s.mem ==>
      (Loadable(s.mem, s.page + 1) <==> NextInited(s)) && PagesOK(s.mem, 1, s.page + 1)
      && ScanEnd(s.mem[s.page + 1], PAGE_INIT) == PAGE_INIT
      && Frames(s.mem[s.page + 1], PAGE_INIT) == [] && Earlier(s.mem, s.page + 1) + [] == Log(s)
  {
    hide Stamped;
    LogSnoc(s.mem, 1, s.page);
    EndScanned(s.mem[s.page], PAGE_INIT);
    assert Log(s) + ([] + LogFrom(s.mem, s.page + 1, s.page)) == Log(s);
    if s.page + 1 in s.mem {
      EmptyFrom(s.mem[s.page + 1]);
    }
  }

  lemma EndSought(s: Sys, nums: seq<nat>)
    requires Inv(s) && 1 <= s.page && Present(s.mem, nums) && nums != [] && nums[|nums| - 1] == Newest(s)
    ensures Consistent(s.mem, s.page, Sought(s.mem, nums, ToLast))
  {
    hide Stamped, ClosedPage, Chain, Frames, LogFrom, ScanEnd, Remaining;
    var r := Sought(s.mem, nums, ToLast);
    assert r.Past() == r.skipped;
    LastSought(s);
    if s.page + 1 in s.mem {
      assert NextInited(s) ==> Waiting(s.mem, s.page, s.page + 1, PAGE_INIT, r.Past());
    } else {
      assert At(s.mem, s.page, s.page, s.pos, r.Past());
    }
  }

  /** The next page file is there and still raw. */
  ghost predicate NextRaw(s: Sys) {
    s.page + 1 in s.mem && |s.mem[s.page + 1]| == PAGE_SIZE && !NextInited(s)
  }

  /** When a seek finds no page: always before the first page is initialised; a seek to the end also while the
      next page file is raw, and a seek to a time while it is raw and reads as started earlier. */
  lemma SeekExpires(s: Sys, nums: seq<nat>, seek: Seek)
    requires Inv(s) && IsListing(s.mem, nums)
    ensures Present(s.mem, nums)
    ensures SoughtPlace(s.mem, nums, seek) == Expired <==>
      s.page == 0 || (seek.ToLast? && NextRaw(s)) || (seek.ToTime? && RawAhead(s, seek.t))
  {
    hide Stamped, ClosedPage, OpenPage, Chain, StartNano, PageForTime;
    ListedEnds(s, nums);
    KeptReadable(s);
    if s.page == 0 {
      NothingSought(s, nums, seek);
    } else if seek.ToTime? {
      SeekFails(s, nums, seek.t);
    } else {
      LastSought(s);
      FirstSought(s);
    }
  }

  lemma {:induction false} EndScanned(pg: PageBytes, pos: nat)
    requires Chain(pg, pos)
    ensures var e := ScanEnd(pg, pos); Chain(pg, e) && ScanEnd(pg, e) == e && Frames(pg, e) == []
    decreases |pg| - pos
  {
    if pg[pos] == WRITTEN {
      EndScanned(pg, pos + LengthAt(pg, pos));
    }
  }

  lemma TimeSought(s: Sys, nums: seq<nat>, t: int)
    requires Inv(s) && 1 <= s.page && IsListing(s.mem, nums) && Present(s.mem, nums)
    ensures Consistent(s.mem, s.page, Sought(s.mem, nums, ToTime(t)))
  {
    hide Stamped, ClosedPage, OpenPage, Frames, LogFrom, StartNano, PageForTime, ScanToTime, Skipped, ScanEnd;
    SeekFails(s, nums, t);
    var r := Sought(s.mem, nums, ToTime(t));
    assert r.skipped + [] == r.skipped;
    if !RawAhead(s, t) {
      SeekAgreesWithScan(s, nums, t);
      ListedPage(s, nums, t);
      var p := PageForTime(s.mem, nums, t);
      if p == s.page + 1 {
        SeekAhead(s, t);
      }
    }
  }

  ghost predicate Sized(mem: Mem, n: nat) {
    forall k: nat :: 1 <= k <= n ==> k in mem && |mem[k]| == PAGE_SIZE
  }

  lemma SeekParts(mem: Mem, n: nat, clock: int, p: nat, t: int)
    requires Stamped(mem, n, clock) && 1 <= p <= n && Sized(mem, n)
    requires StartNano(mem[p]) < t || (p == 1 && StartNano(mem[p]) >= t)
    requires p < n ==> StartNano(mem[p + 1]) >= t
    ensures var e := ScanToTime(mem[p], PAGE_INIT, t);
      && OnTrack(mem, n, p, e)
      && var before, after := Earlier(mem, p) + Skipped(mem[p], PAGE_INIT, t), Remaining(mem, n, p, e);
         Parted(before, after, LogFrom(mem, 1, n), t) && |before| == LeadingBefore(LogFrom(mem, 1, n), t)
  {
    hide Chain, Frames, NanoOf, StartNano, Skipped, ScanToTime;
    var pg := mem[p];
    ScanSplits(pg, PAGE_INIT, t);
    ScanStops(pg, PAGE_INIT, t);
    var e := ScanToTime(pg, PAGE_INIT, t);
    LogSplit(mem, 1, p, n);
    var a, b, c, d := Earlier(mem, p), Skipped(pg, PAGE_INIT, t), Frames(pg, e), LogFrom(mem, p + 1, n);
    SplitAt(a, b, c, d);
    assert LogFrom(mem, p, n) == (b + c) + d;
    EarlierBefore(mem, n, clock, p, t);
    LaterAtLeast(mem, n, clock, p, t);
    PartedLog(LogFrom(mem, 1, n), a + b, c + d, t);
  }

  lemma EarlierBefore(mem: Mem, n: nat, clock: int, p: nat, t: int)
    requires Stamped(mem, n, clock) && 1 <= p <= n && Sized(mem, n)
    requires StartNano(mem[p]) < t || p == 1
    ensures AllBefore(Earlier(mem, p), t)
  {
    hide Chain, Frames, NanoOf, StartNano;
    assert StampedPage(mem, n, clock, p);
  }

  lemma LaterAtLeast(mem: Mem, n: nat, clock: int, p: nat, t: int)
    requires Stamped(mem, n, clock) && 1 <= p <= n && Sized(mem, n) && (p < n ==> StartNano(mem[p + 1]) >= t)
    ensures AllAtLeast(LogFrom(mem, p + 1, n), t)
  {
    hide Chain, Frames, NanoOf, StartNano;
    if p < n {
      assert StampedPage(mem, n, clock, p + 1);
    }
  }

  lemma SplitAt<T>(a: seq<T>, b: seq<T>, c: seq<T>, d: seq<T>)
    ensures a + ((b + c) + d) == (a + b) + (c + d)
  {
  }
}
