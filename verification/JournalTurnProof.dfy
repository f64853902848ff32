/** Turning the page and opening the journal: both programs are legal and leave the log as it is. */
module JournalTurnProof {
  import opened Bytes
  import opened JournalLayout
  import opened JournalProtocol
  import opened JournalInvariant
  import opened JournalProgram
  import opened JournalWriterProof

  /** What the header of a new page says: the journal's name as a C string, the page's number, when it was
      started, and that it is not closed. */
  ghost predicate HeaderSays(pg: PageBytes, page: nat, t: Turning)
    requires |pg| == PAGE_SIZE
  {
    && |t.name| < 30 && pg[H_NAME..H_NAME + |t.name|] == t.name && pg[H_NAME + |t.name|] == 0
    && StartNano(pg) == t.startNano && Field(pg, H_CLOSE_NANO, 8) == -1
    && (FitsSigned(page, 2) ==> Field(pg, H_PAGE_NUM, 2) == page)
  }

  /** The next page has been initialised and nothing else changed. */
  ghost predicate Loaded(s: Sys, s': Sys, t: Turning) {
    && Inv(s) && Inv(s') && Log(s') == Log(s) && s'.mem.Keys == s.mem.Keys
    && s.page + 1 in s'.mem && s'.mem[s.page + 1][0] == PAGE_INITED && StartNano(s'.mem[s.page + 1]) == t.startNano
    && HeaderSays(s'.mem[s.page + 1], s.page + 1, t)
    && (if s.page == 0 then s'.page == 1 && s'.pos == PAGE_INIT && s'.clock == t.startNano
        else s'.page == s.page && s'.pos == s.pos && s'.clock == s.clock && s'.mem[s.page] == s.mem[s.page])
  }

  lemma LoadPatchesQuiet(s: Sys, t: Turning)
    requires Inv(s) && s.page + 1 in s.mem && !NextInited(s) && ValidTurning(t, s.clock)
    ensures AllQuiet(s, s.page + 1, LoadPatches(s.page + 1, t)) && OffCursor(s, PutAll(s.page + 1, LoadPatches(s.page + 1, t)))
  {
    PutAllOff(s, s.page + 1, LoadPatches(s.page + 1, t));
  }

  lemma LoadImaged(pg: PageBytes, page: nat, t: Turning)
    requires |pg| == PAGE_SIZE && ValidTurning(t, t.startNano)
    ensures forall i :: 0 <= i < |LoadPatches(page, t)| ==>
      LoadPatches(page, t)[i].off + |LoadPatches(page, t)[i].bytes| <= PAGE_INIT
    ensures HeaderSays(PatchPage(pg, LoadPatches(page, t)), page, t)
  {
    hide Le, LeVal, Signed, PatchPage;
    var ps := LoadPatches(page, t);
    SpanValues();
    FieldReads(pg, ps, 1, H_START_NANO, t.startNano, 8);
    FieldReads(pg, ps, 2, H_CLOSE_NANO, -1, 8);
    if FitsSigned(page, 2) { FieldReads(pg, ps, 3, H_PAGE_NUM, page, 2); }
    PatchReads(pg, ps, 0);
    var named := PatchPage(pg, ps)[H_NAME..H_NAME + |t.name| + 1];
    assert named == t.name + [0];
    assert named[..|t.name|] == PatchPage(pg, ps)[H_NAME..H_NAME + |t.name|] && named[|t.name|] == PatchPage(pg, ps)[H_NAME + |t.name|];
  }

  /** The status and version bytes lie outside those fields. */
  lemma HeaderApart(pg: PageBytes, page: nat, t: Turning, off: nat, b: byte)
    requires |pg| == PAGE_SIZE && HeaderSays(pg, page, t) && (off == 0 || H_VERSION <= off < PAGE_INIT)
    ensures HeaderSays(pg[off := b], page, t)
  {
    hide Signed, LeVal;
    var pg' := pg[off := b];
    assert pg'[H_NAME..H_NAME + |t.name|] == pg[H_NAME..H_NAME + |t.name|];
    assert pg'[H_START_NANO..H_START_NANO + 8] == pg[H_START_NANO..H_START_NANO + 8];
    assert pg'[H_CLOSE_NANO..H_CLOSE_NANO + 8] == pg[H_CLOSE_NANO..H_CLOSE_NANO + 8];
    assert pg'[H_PAGE_NUM..H_PAGE_NUM + 2] == pg[H_PAGE_NUM..H_PAGE_NUM + 2];
  }

  /** The header fields of a new page, before its status. */
  lemma HeaderRun(s: Sys, t: Turning)
    requires Inv(s) && s.page + 1 in s.mem && !NextInited(s) && ValidTurning(t, s.clock)
    ensures var evs := PutAll(s.page + 1, LoadPatches(s.page + 1, t));
      && LegalAll(s, evs)
      && var s' := ApplyAll(s, evs);
         && Inv(s') && Log(s') == Log(s) && s'.page == s.page && s'.pos == s.pos && s'.clock == s.clock
         && s'.mem.Keys == s.mem.Keys && StartNano(s'.mem[s.page + 1]) == t.startNano
         && HeaderSays(s'.mem[s.page + 1], s.page + 1, t)
         && (1 <= s.page ==> s'.mem[s.page] == s.mem[s.page])
  {
    hide Stamped;
    LoadPatchesQuiet(s, t);
    PutAllRun(s, s.page + 1, LoadPatches(s.page + 1, t));
    OffCursorLog(s, PutAll(s.page + 1, LoadPatches(s.page + 1, t)));
    LoadImaged(s.mem[s.page + 1], s.page + 1, t);
  }

  lemma StatusRun(s: Sys, t: Turning)
    requires Inv(s) && s.page + 1 in s.mem && StartNano(s.mem[s.page + 1]) == t.startNano >= s.clock
    requires HeaderSays(s.mem[s.page + 1], s.page + 1, t)
    ensures Legal(s, Put(s.page + 1, 0, PAGE_INITED)) && Loaded(s, Apply(s, Put(s.page + 1, 0, PAGE_INITED)), t)
  {
    hide Stamped;
    var ev := Put(s.page + 1, 0, PAGE_INITED);
    StoreKeepsInv(s, ev);
    HeaderApart(s.mem[s.page + 1], s.page + 1, t, 0, PAGE_INITED);
  }

  /** One byte of the version, stored in the next page or, once the first page is open, in that page. */
  lemma VersionByte(s: Sys, s': Sys, t: Turning, off: nat, b: byte)
    requires Loaded(s, s', t) && H_VERSION <= off < H_VERSION + 2 && VersionStore(off, b)
    ensures Legal(s', Put(s.page + 1, off, b)) && Loaded(s, Apply(s', Put(s.page + 1, off, b)), t)
  {
    hide Stamped, Chain, Frames, Log, ClosedPage, HeaderSays;
    var ev := Put(s.page + 1, off, b);
    StoreKeepsInv(s', ev);
    StartsSame(s'.mem[s.page + 1], off, b);
    HeaderApart(s'.mem[s.page + 1], s.page + 1, t, off, b);
  }

  lemma StartsSame(pg: PageBytes, off: nat, b: byte)
    requires |pg| == PAGE_SIZE && H_VERSION <= off < PAGE_INIT
    ensures StartNano(pg[off := b]) == StartNano(pg)
  {
    assert pg[off := b][H_START_NANO..H_START_NANO + 8] == pg[H_START_NANO..H_START_NANO + 8];
  }

  lemma VersionBytes(p: nat)
    ensures Puts(p, H_VERSION, Le(FRAME_VERSION, 2)) == [Put(p, H_VERSION, FRAME_VERSION), Put(p, H_VERSION + 1, 0)]
  {
    assert Le(FRAME_VERSION, 2) == [FRAME_VERSION, 0];
  }

  lemma VersionRun(s: Sys, s': Sys, t: Turning)
    requires Loaded(s, s', t)
    ensures var evs := Puts(s.page + 1, H_VERSION, Le(FRAME_VERSION, 2));
      LegalAll(s', evs) && Loaded(s, ApplyAll(s', evs), t)
  {
    hide Loaded, Legal, Apply, LegalAll, ApplyAll, Puts, Le;
    var e1, e2 := Put(s.page + 1, H_VERSION, FRAME_VERSION), Put(s.page + 1, H_VERSION + 1, 0);
    VersionBytes(s.page + 1);
    VersionByte(s, s', t, H_VERSION, FRAME_VERSION);
    VersionByte(s, Apply(s', e1), t, H_VERSION + 1, 0);
    TwoRun(s', e1, e2);
  }

  lemma OneRun(s: Sys, ev: Event)
    requires Legal(s, ev)
    ensures LegalAll(s, [ev]) && ApplyAll(s, [ev]) == Apply(s, ev)
  {
    assert [ev][1..] == [];
    assert LegalAll(Apply(s, ev), []) && ApplyAll(Apply(s, ev), []) == Apply(s, ev);
  }

  lemma LoadedLater(s: Sys, s1: Sys, s2: Sys, t: Turning)
    requires Inv(s) && Inv(s1) && Log(s1) == Log(s) && s1.page == s.page && s1.pos == s.pos && s1.clock == s.clock
    requires s1.mem.Keys == s.mem.Keys && (1 <= s.page ==> s1.page in s.mem && s1.mem[s.page] == s.mem[s.page])
    requires Loaded(s1, s2, t)
    ensures Loaded(s, s2, t)
  {
    hide Shape, Stamped;
  }

  /** Loading a page that exists but is still raw. */
  lemma LoadRun(s: Sys, t: Turning)
    requires Inv(s) && s.page + 1 in s.mem && !NextInited(s) && ValidTurning(t, s.clock)
    ensures LegalAll(s, LoadProgram(s.page + 1, t)) && Loaded(s, ApplyAll(s, LoadProgram(s.page + 1, t)), t)
  {
    hide Stamped, LegalAll, ApplyAll, Legal, Apply, LoadPatches, Log, Loaded;
    var p := s.page + 1;
    var fields, status, version := PutAll(p, LoadPatches(p, t)), [Put(p, 0, PAGE_INITED)], Puts(p, H_VERSION, Le(FRAME_VERSION, 2));
    HeaderRun(s, t);
    var s1 := ApplyAll(s, fields);
    StatusRun(s1, t);
    OneRun(s1, status[0]);
    var s2 := ApplyAll(s1, status);
    VersionRun(s1, s2, t);
    RunConcat(s1, status, version);
    RunConcat(s, fields, status + version);
    assert fields + (status + version) == LoadProgram(p, t);
    LoadedLater(s, s1, ApplyAll(s2, version), t);
  }

  // ---------------------------------------------------------------- closing the old page

  lemma {:induction false} FramesBound(pg: PageBytes, pos: nat)
    requires Chain(pg, pos)
    ensures pos + |Frames(pg, pos)| <= ScanEnd(pg, pos)
    decreases |pg| - pos
  {
    if pg[pos] == WRITTEN {
      FramesBound(pg, pos + LengthAt(pg, pos));
    }
  }

  lemma FinishImaged(pg: PageBytes, pos: nat, n: nat, closeNano: int)
    requires |pg| == PAGE_SIZE && pos < PAGE_SIZE && n < PAGE_SIZE && FitsSigned(closeNano, 8)
    ensures forall i :: 0 <= i < 3 ==>
      var q := FinishPatches(pos, n, closeNano)[i]; H_CLOSE_NANO <= q.off && q.off + |q.bytes| <= PAGE_INIT
    ensures Field(PatchPage(pg, FinishPatches(pos, n, closeNano)), H_FRAME_NUM, 4) == n
    ensures Field(PatchPage(pg, FinishPatches(pos, n, closeNano)), H_LAST_POS, 4) == pos
    ensures Field(PatchPage(pg, FinishPatches(pos, n, closeNano)), H_CLOSE_NANO, 8) == closeNano
  {
    hide Le, LeVal, Signed, PatchPage;
    var ps := FinishPatches(pos, n, closeNano);
    FieldReads(pg, ps, 0, H_CLOSE_NANO, closeNano, 8);
    FieldReads(pg, ps, 1, H_FRAME_NUM, n, 4);
    FieldReads(pg, ps, 2, H_LAST_POS, pos, 4);
  }

  /** The cursor has moved to the start of the next page, the page left says when it was closed, and the log is
      as it was. */
  ghost predicate Moved(s: Sys, s': Sys, t: Turning) {
    && s.page in s'.mem && |s'.mem[s.page]| == PAGE_SIZE && Field(s'.mem[s.page], H_CLOSE_NANO, 8) == t.closeNano
    && Inv(s) && Inv(s') && Log(s') == Log(s)
    && s'.page == s.page + 1 && s'.pos == PAGE_INIT && s'.clock == t.startNano && s'.mem.Keys == s.mem.Keys
  }

  lemma FinishQuiet(s: Sys, n: nat, closeNano: int)
    requires Inv(s) && 1 <= s.page && n < PAGE_SIZE && FitsSigned(closeNano, 8)
    ensures AllQuiet(s, s.page, FinishPatches(s.pos, n, closeNano))
    ensures OffCursor(s, PutAll(s.page, FinishPatches(s.pos, n, closeNano)))
  {
    hide Stamped, Chain, Frames, StartNano, ClosedPage, Versioned, Poised, NextInited, OffCursor, PutAll, Le;
    PutAllOff(s, s.page, FinishPatches(s.pos, n, closeNano));
  }

  lemma FinishFieldsRun(s: Sys, closeNano: int)
    requires Inv(s) && 1 <= s.page && FitsSigned(closeNano, 8)
    ensures var n := |Frames(s.mem[s.page], PAGE_INIT)|;
      var evs := PutAll(s.page, FinishPatches(s.pos, n, closeNano));
      && LegalAll(s, evs)
      && var s' := ApplyAll(s, evs);
         && Inv(s') && Log(s') == Log(s) && s'.page == s.page && s'.pos == s.pos && s'.clock == s.clock
         && s'.mem.Keys == s.mem.Keys && (s.page + 1 in s.mem ==> s'.mem[s.page + 1] == s.mem[s.page + 1])
         && Field(s'.mem[s.page], H_FRAME_NUM, 4) == n == |Frames(s'.mem[s.page], PAGE_INIT)|
         && Field(s'.mem[s.page], H_LAST_POS, 4) == s.pos && Field(s'.mem[s.page], H_CLOSE_NANO, 8) == closeNano
  {
    hide Stamped, Chain, Frames, LegalAll, ApplyAll, Log, StartNano, ClosedPage, Versioned, Poised, AllQuiet, OffCursor;
    var pg := s.mem[s.page];
    var n := |Frames(pg, PAGE_INIT)|;
    FramesBound(pg, PAGE_INIT);
    var ps := FinishPatches(s.pos, n, closeNano);
    FinishImaged(pg, s.pos, n, closeNano);
    FinishQuiet(s, n, closeNano);
    PutAllRun(s, s.page, ps);
    OffCursorLog(s, PutAll(s.page, ps));
    PatchKeepsFrames(pg, ps);
  }

  /** Bytes a scan never looks at: in the page header, or past the end of the written frames. */
  ghost predicate Unseen(pg: PageBytes, off: nat, len: nat)
    requires Chain(pg, PAGE_INIT)
  {
    off + len <= |pg| && (off + len <= PAGE_INIT || off > ScanEnd(pg, PAGE_INIT))
  }

  /** Patches a scan never looks at leave the frames alone. */
  lemma {:induction false} PatchKeepsFrames(pg: PageBytes, ps: seq<Patch>)
    requires |pg| == PAGE_SIZE && Chain(pg, PAGE_INIT)
    requires forall i :: 0 <= i < |ps| ==> ps[i].off + |ps[i].bytes| <= |pg|
    requires forall i :: 0 <= i < |ps| ==> Unseen(pg, ps[i].off, |ps[i].bytes|)
    ensures var pg' := PatchPage(pg, ps);
      && Chain(pg', PAGE_INIT) && Frames(pg', PAGE_INIT) == Frames(pg, PAGE_INIT)
      && ScanEnd(pg', PAGE_INIT) == ScanEnd(pg, PAGE_INIT)
    decreases |ps|
  {
    if ps != [] {
      WriteKeepsFrames(pg, ps[0].off, ps[0].bytes);
      PatchKeepsFrames(Write(pg, ps[0].off, ps[0].bytes), ps[1..]);
    }
  }

  lemma {:induction false} WriteKeepsFrames(pg: PageBytes, off: nat, bs: seq<byte>)
    requires |pg| == PAGE_SIZE && Chain(pg, PAGE_INIT) && Unseen(pg, off, |bs|)
    ensures var pg' := Write(pg, off, bs);
      && Chain(pg', PAGE_INIT) && Frames(pg', PAGE_INIT) == Frames(pg, PAGE_INIT)
      && ScanEnd(pg', PAGE_INIT) == ScanEnd(pg, PAGE_INIT)
    decreases |bs|
  {
    hide Chain, Frames, ScanEnd;
    if bs == [] {
      assert Write(pg, off, bs) == pg;
    } else {
      StoreElsewhere(pg, PAGE_INIT, off, bs[0]);
      WriteKeepsFrames(pg[off := bs[0]], off + 1, bs[1..]);
      assert Write(pg[off := bs[0]], off + 1, bs[1..]) == Write(pg, off, bs);
    }
  }

  lemma EndRun(s: Sys, t: Turning)
    requires Inv(s) && 1 <= s.page && TurnReady(s) && StartNano(s.mem[s.page + 1]) == t.startNano
    requires Field(s.mem[s.page], H_CLOSE_NANO, 8) == t.closeNano
    ensures Legal(s, Put(s.page, s.pos, PAGE_END)) && Moved(s, Apply(s, Put(s.page, s.pos, PAGE_END)), t)
  {
    hide Stamped;
    StoreKeepsInv(s, Put(s.page, s.pos, PAGE_END));
    var pg := s.mem[s.page];
    assert pg[s.pos := PAGE_END][H_CLOSE_NANO..H_CLOSE_NANO + 8] == pg[H_CLOSE_NANO..H_CLOSE_NANO + 8];
  }

  /** Closing the page once the next one is initialised. */
  lemma FinishRun(s: Sys, t: Turning)
    requires Inv(s) && 1 <= s.page && s.page + 1 in s.mem && s.mem[s.page + 1][0] == PAGE_INITED
    requires StartNano(s.mem[s.page + 1]) == t.startNano >= s.clock && FitsSigned(t.closeNano, 8)
    ensures var evs := FinishProgram(s.page, s.pos, |Frames(s.mem[s.page], PAGE_INIT)|, t.closeNano);
      LegalAll(s, evs) && Moved(s, ApplyAll(s, evs), t)
  {
    hide Stamped, LegalAll, ApplyAll, Legal, Apply, FinishPatches, Log, Chain, Frames;
    var fields := PutAll(s.page, FinishPatches(s.pos, |Frames(s.mem[s.page], PAGE_INIT)|, t.closeNano));
    var end := [Put(s.page, s.pos, PAGE_END)];
    FinishFieldsRun(s, t.closeNano);
    var s1 := ApplyAll(s, fields);
    EndRun(s1, t);
    OneRun(s1, end[0]);
    RunConcat(s, fields, end);
  }

  // ---------------------------------------------------------------- the programs

  lemma CreateRun(s: Sys)
    requires Inv(s) && s.page + 1 !in s.mem
    ensures var ev := Create(s.page + 1);
      && Legal(s, ev)
      && var s' := Apply(s, ev);
         && Inv(s') && Log(s') == Log(s) && s'.page == s.page && s'.pos == s.pos && s'.clock == s.clock
         && s'.mem.Keys == s.mem.Keys + {s.page + 1} && (1 <= s.page ==> s.page in s.mem && s'.mem[s.page] == s.mem[s.page])
         && !NextInited(s')
  {
    hide Stamped;
    StoreKeepsInv(s, Create(s.page + 1));
  }

  /** Obtaining and initialising the next page leaves the log and the cursor. */
  lemma NextRun(s: Sys, t: Turning)
    requires Inv(s) && 1 <= s.page && s.page + 1 !in s.mem && ValidTurning(t, s.clock)
    ensures var evs := [Create(s.page + 1)] + LoadProgram(s.page + 1, t);
      && LegalAll(s, evs)
      && var s2 := ApplyAll(s, evs);
         && Inv(s2) && Log(s2) == Log(s) && s2.page == s.page && s2.pos == s.pos && s2.clock == s.clock
         && s2.mem.Keys == s.mem.Keys + {s.page + 1}
         && s.page in s.mem && s.page in s2.mem && s2.mem[s.page] == s.mem[s.page]
         && s.page + 1 in s2.mem && s2.mem[s.page + 1][0] == PAGE_INITED && StartNano(s2.mem[s.page + 1]) == t.startNano
  {
    hide Stamped, Shape, LegalAll, ApplyAll, Legal, Apply, Log, Chain, Frames, LoadProgram;
    var create, load := [Create(s.page + 1)], LoadProgram(s.page + 1, t);
    CreateRun(s);
    OneRun(s, create[0]);
    LoadRun(ApplyAll(s, create), t);
    RunConcat(s, create, load);
  }

  /** Turning the page is legal; the log stays, the cursor moves, and no page is left half made. */
  lemma TurnRun(s: Sys, t: Turning)
    requires Inv(s) && 1 <= s.page && s.page + 1 !in s.mem && ValidTurning(t, s.clock)
    ensures var evs := TurnProgram(s.page, s.pos, |Frames(s.mem[s.page], PAGE_INIT)|, t);
      && LegalAll(s, evs)
      && var s' := ApplyAll(s, evs);
         && Inv(s') && Log(s') == Log(s) && s'.page == s.page + 1 && s'.pos == PAGE_INIT && s'.clock == t.startNano
         && s'.page + 1 !in s'.mem
  {
    assert s.page in s.mem && Chain(s.mem[s.page], PAGE_INIT) && s.page + 2 !in s.mem;
    hide Stamped, Shape, LegalAll, ApplyAll, Legal, Apply, Log, Chain, Frames, FinishProgram, LoadProgram;
    NextRun(s, t);
    var next := [Create(s.page + 1)] + LoadProgram(s.page + 1, t);
    var s2 := ApplyAll(s, next);
    FinishRun(s2, t);
    RunConcat(s, next, FinishProgram(s.page, s.pos, |Frames(s.mem[s.page], PAGE_INIT)|, t.closeNano));
  }

  /** Opening a journal with no initialised page gives it its first, empty page. */
  lemma OpenRun(s: Sys, t: Turning)
    requires Inv(s) && s.page == 0 && ValidTurning(t, s.clock)
    ensures var evs := OpenProgram(1 in s.mem, t);
      && LegalAll(s, evs)
      && var s' := ApplyAll(s, evs);
         && Inv(s') && Log(s') == Log(s) && s'.page == 1 && s'.pos == PAGE_INIT && s'.clock == t.startNano
         && s'.page + 1 !in s'.mem
  {
    hide Stamped, LegalAll, ApplyAll, Legal, Apply, Log, Chain, Frames, LoadProgram;
    if 1 in s.mem {
      LoadRun(s, t);
      assert [] + LoadProgram(1, t) == LoadProgram(1, t);
    } else {
      CreateRun(s);
      OneRun(s, Create(1));
      LoadRun(ApplyAll(s, [Create(1)]), t);
      RunConcat(s, [Create(1)], LoadProgram(1, t));
    }
  }

  /** A whole append: it turns the page when there is no room, and the log grows by exactly the frame asked for. */
  lemma AppendRun(s: Sys, t: Turning, req: Request)
    requires Inv(s) && 1 <= s.page && s.page + 1 !in s.mem && ValidTurning(t, s.clock)
    requires ValidRequest(req) && req.nano >= t.startNano
    ensures var evs := AppendProgram(s.page, s.pos, |Frames(s.mem[s.page], PAGE_INIT)|, t, req);
      && LegalAll(s, evs) && Appended(s, ApplyAll(s, evs), req)
      && ApplyAll(s, evs).page >= 1 && ApplyAll(s, evs).page + 1 !in ApplyAll(s, evs).mem
  {
    hide Stamped, LegalAll, ApplyAll, Legal, Apply, Log, Chain, Frames, FrameProgram, TurnProgram, Appended;
    if Writable(s.pos) {
      FrameRun(s, req);
    } else {
      var turn := TurnProgram(s.page, s.pos, |Frames(s.mem[s.page], PAGE_INIT)|, t);
      TurnRun(s, t);
      var s1 := ApplyAll(s, turn);
      FrameRun(s1, req);
      RunConcat(s, turn, FrameProgram(s1.page, s1.pos, req));
      AppendedLater(s, s1, ApplyAll(s1, FrameProgram(s1.page, s1.pos, req)), req);
    }
  }
}
