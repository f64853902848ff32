/** The writer's programs are legal, and an append adds exactly the frame that was asked for. */
module JournalWriterProof {
  import opened Bytes
  import opened JournalLayout
  import opened JournalProtocol
  import opened JournalInvariant
  import opened JournalProgram

  /** A stretch of bytes whose stores publish nothing and move no cursor. */
  ghost predicate Quiet(s: Sys, p: nat, off: nat, len: nat) {
    && p in s.mem && |s.mem[p]| == PAGE_SIZE && off + len <= PAGE_SIZE && (off + len <= H_VERSION || off >= H_VERSION + 2)
    && if p == s.page + 1 then
         1 <= off && off + len <= PAGE_INIT && (NextInited(s) ==> off + len <= H_START_NANO || off >= H_CLOSE_NANO)
       else p == s.page && 1 <= p && ((H_CLOSE_NANO <= off && off + len <= PAGE_INIT) || (off > s.pos >= PAGE_INIT))
  }

  ghost function WithPage(s: Sys, p: nat, pg: PageBytes): Sys {
    s.(mem := s.mem[p := pg])
  }

  lemma QuietStore(s: Sys, p: nat, off: nat, len: nat, b: byte)
    requires Quiet(s, p, off, len) && (p == s.page ==> s.pos >= PAGE_INIT) && 1 <= len
    ensures Legal(s, Put(p, off, b)) && Apply(s, Put(p, off, b)) == WithPage(s, p, s.mem[p][off := b])
    ensures Quiet(WithPage(s, p, s.mem[p][off := b]), p, off + 1, len - 1)
  {
    hide Chain, CommitReady, TurnReady, StartNano, NanoAt, LengthAt;
  }

  lemma {:induction false} PutsRun(s: Sys, p: nat, off: nat, bs: seq<byte>)
    requires Quiet(s, p, off, |bs|) && (p == s.page ==> s.pos >= PAGE_INIT)
    ensures LegalAll(s, Puts(p, off, bs))
    ensures ApplyAll(s, Puts(p, off, bs)) == WithPage(s, p, Write(s.mem[p], off, bs))
    decreases |bs|
  {
    hide Legal, Apply;
    var pg := s.mem[p];
    if bs == [] {
      assert Write(pg, off, bs) == pg;
      assert WithPage(s, p, pg) == s;
    } else {
      var pg': PageBytes := pg[off := bs[0]];
      var s' := WithPage(s, p, pg');
      var evs := Puts(p, off, bs);
      QuietStore(s, p, off, |bs|, bs[0]);
      assert evs[0] == Put(p, off, bs[0]) && evs[1..] == Puts(p, off + 1, bs[1..]);
      PutsRun(s', p, off + 1, bs[1..]);
      assert Write(pg', off + 1, bs[1..]) == Write(pg, off, bs);
      assert WithPage(s', p, Write(pg, off, bs)) == WithPage(s, p, Write(pg, off, bs));
    }
  }

  ghost predicate AllQuiet(s: Sys, p: nat, ps: seq<Patch>) {
    && p in s.mem && |s.mem[p]| == PAGE_SIZE && (p == s.page ==> s.pos >= PAGE_INIT)
    && forall i :: 0 <= i < |ps| ==> Quiet(s, p, ps[i].off, |ps[i].bytes|)
  }

  lemma {:induction false} PutAllRun(s: Sys, p: nat, ps: seq<Patch>)
    requires AllQuiet(s, p, ps)
    ensures LegalAll(s, PutAll(p, ps))
    ensures ApplyAll(s, PutAll(p, ps)) == WithPage(s, p, PatchPage(s.mem[p], ps))
    decreases |ps|
  {
    hide Chain, Frames, CommitReady, TurnReady, StartNano, NanoAt, LengthAt;
    if ps == [] {
      assert WithPage(s, p, s.mem[p]) == s;
    } else {
      var pg' := Write(s.mem[p], ps[0].off, ps[0].bytes);
      var s' := WithPage(s, p, pg');
      PutsRun(s, p, ps[0].off, ps[0].bytes);
      PutAllRun(s', p, ps[1..]);
      RunConcat(s, Puts(p, ps[0].off, ps[0].bytes), PutAll(p, ps[1..]));
      assert WithPage(s', p, PatchPage(pg', ps[1..])) == WithPage(s, p, PatchPage(pg', ps[1..]));
    }
  }

  // ---------------------------------------------------------------- what a frame says

  function DataOf(r: Raw): seq<byte>
    requires |r| >= BASIC_HEADER - 1
  {
    var h := if Field(r, F_ERR_ID - 1, 4) == 0 then BASIC_HEADER else ERROR_HEADER;
    if h - 1 <= |r| then r[h - 1..] else []
  }

  /** The message field: the text from its first byte on, cut to the field or followed by zeros. */
  ghost predicate HoldsMessage(field: seq<byte>, m: seq<byte>) {
    |field| == ERROR_MSG_MAX && forall i :: 0 <= i < ERROR_MSG_MAX ==> field[i] == if i < |m| then m[i] else 0
  }

  /** What the getters of a frame return is what the append was asked to store. The message of an error
      frame written without one is whatever the page held. */
  ghost predicate Says(r: Raw, req: Request) {
    && |r| == FrameLength(req) - 1
    && Field(r, F_SOURCE - 1, 2) == req.source
    && NanoOf(r) == req.nano
    && Field(r, F_LENGTH - 1, 4) == FrameLength(req)
    && Field(r, F_MSG_TYPE - 1, 2) == req.msgType
    && r[F_LAST_FLAG - 1] == req.lastFlag
    && Field(r, F_REQ_ID - 1, 4) == req.requestId
    && Field(r, F_EXTRA_NANO - 1, 8) == req.extraNano
    && Field(r, F_ERR_ID - 1, 4) == req.errorId
    && (req.errorId != 0 && req.errorMsg.Some? ==> HoldsMessage(r[BASIC_HEADER - 1..ERROR_HEADER - 1], req.errorMsg.value))
    && DataOf(r) == req.data
  }

  lemma SliceOfSlice(s: seq<byte>, a: nat, b: nat, c: nat, d: nat)
    requires a <= b <= |s| && c <= d <= b - a
    ensures s[a..b][c..d] == s[a + c..a + d]
  {
    var l, r := s[a..b][c..d], s[a + c..a + d];
    assert |l| == |r| && forall i :: 0 <= i < |l| ==> l[i] == r[i];
  }

  lemma RawField(pg: PageBytes, pos: nat, len: nat, off: nat, w: nat)
    requires 1 <= off && off + w <= len && pos + len <= |pg|
    ensures Field(pg[pos + 1..pos + len], off - 1, w) == Field(pg, pos + off, w)
  {
    SliceOfSlice(pg, pos + 1, pos + len, off - 1, off - 1 + w);
  }

  /** `ps` lists the patches of a frame, with `e` of them for an error message. */
  ghost predicate Listed(ps: seq<Patch>, e: nat, pos: nat, req: Request) {
    && e <= 1 && |ps| == 9 + e
    && ps[0] == Patch(pos + F_SOURCE, Le(req.source, 2)) && ps[1] == Patch(pos + F_MSG_TYPE, Le(req.msgType, 2))
    && ps[2] == Patch(pos + F_LAST_FLAG, [req.lastFlag]) && ps[3] == Patch(pos + F_REQ_ID, Le(req.requestId, 4))
    && ps[4] == Patch(pos + F_ERR_ID, Le(req.errorId, 4))
    && (e == 1 <==> req.errorId != 0 && req.errorMsg.Some?)
    && (e == 1 ==> ps[5] == Patch(pos + BASIC_HEADER, Padded(req.errorMsg.value)))
    && ps[5 + e] == Patch(pos + HeaderLength(req), req.data) && ps[6 + e] == Patch(pos + F_LENGTH, Le(FrameLength(req), 4))
    && ps[7 + e] == Patch(pos + F_EXTRA_NANO, Le(req.extraNano, 8)) && ps[8 + e] == Patch(pos + F_NANO, Le(req.nano, 8))
  }

  lemma FramePatchList(pos: nat, req: Request)
    ensures Listed(FramePatches(pos, req), |ErrorPatches(pos, req)|, pos, req)
  {
  }

  ghost predicate Spans(q: Patch, off: nat, len: nat) {
    q.off == off && |q.bytes| == len
  }

  /** Where the patches of a frame lie; its header takes `h` bytes and its data `d`. */
  ghost predicate Placed(ps: seq<Patch>, e: nat, pos: nat, h: nat, d: nat) {
    && e <= 1 && |ps| == 9 + e && (e == 1 ==> h == ERROR_HEADER) && h in {BASIC_HEADER, ERROR_HEADER}
    && Spans(ps[0], pos + F_SOURCE, 2) && Spans(ps[1], pos + F_MSG_TYPE, 2) && Spans(ps[2], pos + F_LAST_FLAG, 1)
    && Spans(ps[3], pos + F_REQ_ID, 4) && Spans(ps[4], pos + F_ERR_ID, 4)
    && (e == 1 ==> Spans(ps[5], pos + BASIC_HEADER, ERROR_MSG_MAX))
    && Spans(ps[5 + e], pos + h, d) && Spans(ps[6 + e], pos + F_LENGTH, 4)
    && Spans(ps[7 + e], pos + F_EXTRA_NANO, 8) && Spans(ps[8 + e], pos + F_NANO, 8)
  }

  lemma PlacedFits(ps: seq<Patch>, e: nat, pos: nat, h: nat, d: nat)
    requires Placed(ps, e, pos, h, d)
    ensures forall i :: 0 <= i < |ps| ==> pos < ps[i].off && ps[i].off + |ps[i].bytes| <= pos + h + d
    ensures forall i, j :: 0 <= i < j < |ps| ==> Apart(ps[i], ps[j])
  {
  }

  lemma FramePatchesFit(pos: nat, req: Request)
    ensures forall i :: 0 <= i < |FramePatches(pos, req)| ==>
      var q := FramePatches(pos, req)[i]; pos < q.off && q.off + |q.bytes| <= pos + FrameLength(req)
    ensures forall i, j :: 0 <= i < j < |FramePatches(pos, req)| ==>
      Apart(FramePatches(pos, req)[i], FramePatches(pos, req)[j])
  {
    FramePatchList(pos, req);
    PlacedFits(FramePatches(pos, req), |ErrorPatches(pos, req)|, pos, HeaderLength(req), |req.data|);
  }

  /** Patches that lie in the page and do not overlap. */
  ghost predicate Spread(pg: PageBytes, ps: seq<Patch>) {
    && (forall i :: 0 <= i < |ps| ==> ps[i].off + |ps[i].bytes| <= |pg|)
    && (forall i, j :: 0 <= i < j < |ps| ==> Apart(ps[i], ps[j]))
  }

  /** A field stored by one of the patches reads back as the value it was given. */
  lemma FieldReads(pg: PageBytes, ps: seq<Patch>, k: nat, off: nat, n: int, w: nat)
    requires Spread(pg, ps) && k < |ps| && ps[k] == Patch(off, Le(n, w)) && FitsSigned(n, w)
    ensures Field(PatchPage(pg, ps), off, w) == n
  {
    PatchReads(pg, ps, k);
    LeSigned(n, w);
  }

  lemma ByteReads(pg: PageBytes, ps: seq<Patch>, k: nat, off: nat, b: byte)
    requires Spread(pg, ps) && k < |ps| && ps[k] == Patch(off, [b])
    ensures PatchPage(pg, ps)[off] == b
  {
    PatchReads(pg, ps, k);
    assert PatchPage(pg, ps)[off..off + 1][0] == b;
  }

  /** The bytes of the page after a frame's fields have been stored. */
  ghost predicate Imaged(pg: PageBytes, pos: nat, req: Request) {
    ValidRequest(req) && pos + FrameLength(req) <= |pg| && ImagedHead(pg, pos, req) && ImagedTail(pg, pos, req)
  }

  ghost predicate ImagedHead(pg: PageBytes, pos: nat, req: Request)
    requires pos + BASIC_HEADER <= |pg|
  {
    && Field(pg, pos + F_SOURCE, 2) == req.source && Field(pg, pos + F_MSG_TYPE, 2) == req.msgType
    && pg[pos + F_LAST_FLAG] == req.lastFlag && Field(pg, pos + F_REQ_ID, 4) == req.requestId
    && Field(pg, pos + F_ERR_ID, 4) == req.errorId
  }

  ghost predicate ImagedTail(pg: PageBytes, pos: nat, req: Request)
    requires pos + FrameLength(req) <= |pg|
  {
    && Field(pg, pos + F_LENGTH, 4) == FrameLength(req)
    && Field(pg, pos + F_EXTRA_NANO, 8) == req.extraNano && Field(pg, pos + F_NANO, 8) == req.nano
    && pg[pos + HeaderLength(req)..pos + FrameLength(req)] == req.data
    && (req.errorId != 0 && req.errorMsg.Some? ==>
          pg[pos + BASIC_HEADER..pos + ERROR_HEADER] == Padded(req.errorMsg.value))
  }

  lemma HeadImaged(pg: PageBytes, ps: seq<Patch>, e: nat, pos: nat, req: Request)
    requires ValidRequest(req) && pos + FrameLength(req) <= |pg| && Spread(pg, ps) && Listed(ps, e, pos, req)
    ensures ImagedHead(PatchPage(pg, ps), pos, req)
  {
    hide PatchPage, Spread, Signed, LeVal, Le;
    FieldReads(pg, ps, 0, pos + F_SOURCE, req.source, 2);
    FieldReads(pg, ps, 1, pos + F_MSG_TYPE, req.msgType, 2);
    ByteReads(pg, ps, 2, pos + F_LAST_FLAG, req.lastFlag);
    FieldReads(pg, ps, 3, pos + F_REQ_ID, req.requestId, 4);
    FieldReads(pg, ps, 4, pos + F_ERR_ID, req.errorId, 4);
  }

  lemma TailImaged(pg: PageBytes, ps: seq<Patch>, e: nat, pos: nat, req: Request)
    requires ValidRequest(req) && pos + FrameLength(req) <= |pg| && Spread(pg, ps) && Listed(ps, e, pos, req)
    ensures ImagedTail(PatchPage(pg, ps), pos, req)
  {
    hide PatchPage, Spread, Signed, LeVal, Le;
    if e == 1 {
      PatchReads(pg, ps, 5);
    }
    PatchReads(pg, ps, 5 + e);
    FieldReads(pg, ps, 6 + e, pos + F_LENGTH, FrameLength(req), 4);
    FieldReads(pg, ps, 7 + e, pos + F_EXTRA_NANO, req.extraNano, 8);
    FieldReads(pg, ps, 8 + e, pos + F_NANO, req.nano, 8);
  }

  lemma ListedImaged(pg: PageBytes, ps: seq<Patch>, e: nat, pos: nat, req: Request)
    requires ValidRequest(req) && pos + FrameLength(req) <= |pg| && Spread(pg, ps) && Listed(ps, e, pos, req)
    ensures Imaged(PatchPage(pg, ps), pos, req)
  {
    HeadImaged(pg, ps, e, pos, req);
    TailImaged(pg, ps, e, pos, req);
  }

  lemma FrameImaged(pg: PageBytes, pos: nat, req: Request)
    requires ValidRequest(req) && pos + FrameLength(req) <= |pg|
    ensures Spread(pg, FramePatches(pos, req))
    ensures Imaged(PatchPage(pg, FramePatches(pos, req)), pos, req)
  {
    FramePatchesFit(pos, req);
    FramePatchList(pos, req);
    ListedImaged(pg, FramePatches(pos, req), |ErrorPatches(pos, req)|, pos, req);
  }

  lemma ImagedSays(pg: PageBytes, pos: nat, req: Request)
    requires Imaged(pg, pos, req)
    ensures Says(pg[pos + 1..pos + FrameLength(req)], req)
  {
    hide Signed, LeVal;
    var len := FrameLength(req);
    RawField(pg, pos, len, F_SOURCE, 2);
    RawField(pg, pos, len, F_MSG_TYPE, 2);
    RawField(pg, pos, len, F_REQ_ID, 4);
    RawField(pg, pos, len, F_ERR_ID, 4);
    RawField(pg, pos, len, F_LENGTH, 4);
    RawField(pg, pos, len, F_EXTRA_NANO, 8);
    RawField(pg, pos, len, F_NANO, 8);
    SliceOfSlice(pg, pos + 1, pos + len, HeaderLength(req) - 1, len - 1);
    if req.errorId != 0 {
      SliceOfSlice(pg, pos + 1, pos + len, BASIC_HEADER - 1, ERROR_HEADER - 1);
      if req.errorMsg.Some? { PaddedHolds(req.errorMsg.value); }
    }
  }

  lemma PaddedHolds(m: seq<byte>)
    ensures HoldsMessage(Padded(m), m)
  {
  }

  /** A C string: the bytes up to the first zero, or all of them. */
  function CString(bs: seq<byte>): seq<byte>
    decreases |bs|
  {
    if bs == [] || bs[0] == 0 then [] else [bs[0]] + CString(bs[1..])
  }

  lemma {:induction false} CStringOf(m: seq<byte>, rest: seq<byte>)
    requires 0 !in m && (rest == [] || rest[0] == 0)
    ensures CString(m + rest) == m
    decreases |m|
  {
    if m == [] {
      assert m + rest == rest;
    } else {
      assert (m + rest)[1..] == m[1..] + rest;
      CStringOf(m[1..], rest);
      assert m == [m[0]] + m[1..];
    }
  }

  /** The error text of a written frame reads back, cut to the size of its field; it ends in a zero byte there
      exactly when it is shorter than the field. */
  lemma MessageReads(r: Raw, req: Request)
    requires Says(r, req) && req.errorId != 0 && req.errorMsg.Some? && 0 !in req.errorMsg.value
    ensures |r| >= ERROR_HEADER - 1
    ensures var m, field := req.errorMsg.value, r[BASIC_HEADER - 1..ERROR_HEADER - 1];
      && CString(field) == (if |m| <= ERROR_MSG_MAX then m else m[..ERROR_MSG_MAX])
      && (0 in field <==> |m| < ERROR_MSG_MAX)
  {
    hide Field, DataOf;
    var m, field := req.errorMsg.value, r[BASIC_HEADER - 1..ERROR_HEADER - 1];
    var n := if |m| <= ERROR_MSG_MAX then |m| else ERROR_MSG_MAX;
    assert field == m[..n] + field[n..];
    if n < ERROR_MSG_MAX { assert field[n..][0] == field[n] == 0; }
    CStringOf(m[..n], field[n..]);
    assert m[..|m|] == m;
    if |m| < ERROR_MSG_MAX { assert field[|m|] == 0; }
  }

  // ---------------------------------------------------------------- one frame

  /** The cursor is on a page with room for a frame. */
  ghost predicate AtWritable(s: Sys) {
    Inv(s) && 1 <= s.page && Writable(s.pos)
  }

  ghost function AfterFields(s: Sys, req: Request): PageBytes
    requires AtWritable(s) && ValidRequest(req)
  {
    FrameImaged(s.mem[s.page], s.pos, req);
    PatchPage(s.mem[s.page], FramePatches(s.pos, req))
  }

  lemma FrameQuiet(s: Sys, req: Request)
    requires AtWritable(s) && ValidRequest(req)
    ensures AllQuiet(s, s.page, FramePatches(s.pos, req))
  {
    FramePatchesFit(s.pos, req);
  }

  lemma FieldsRun(s: Sys, req: Request)
    requires AtWritable(s) && ValidRequest(req)
    ensures LegalAll(s, PutAll(s.page, FramePatches(s.pos, req)))
    ensures ApplyAll(s, PutAll(s.page, FramePatches(s.pos, req))) == WithPage(s, s.page, AfterFields(s, req))
  {
    FrameQuiet(s, req);
    PutAllRun(s, s.page, FramePatches(s.pos, req));
  }

  lemma MarkedPage(pg: PageBytes, pos: nat, req: Request)
    requires |pg| == PAGE_SIZE && Writable(pos) && Imaged(pg, pos, req)
    ensures var pg' := pg[pos + FrameLength(req) := RAW];
      && CommitReady(pg', pos) && LengthAt(pg', pos) == FrameLength(req) && NanoAt(pg', pos) == req.nano
      && pg'[pos + 1..pos + FrameLength(req)] == pg[pos + 1..pos + FrameLength(req)]
  {
    var pg' := pg[pos + FrameLength(req) := RAW];
    assert pg'[pos + F_LENGTH..pos + F_LENGTH + 4] == pg[pos + F_LENGTH..pos + F_LENGTH + 4];
    assert pg'[pos + F_NANO..pos + F_NANO + 8] == pg[pos + F_NANO..pos + F_NANO + 8];
  }

  lemma PublishLegal(s: Sys, req: Request)
    requires Inv(s) && 1 <= s.page && CommitReady(s.mem[s.page], s.pos) && NanoAt(s.mem[s.page], s.pos) >= s.clock
    requires s.page + 1 !in s.mem
    ensures var ev := Put(s.page, s.pos, WRITTEN);
      && Legal(s, ev) && Inv(Apply(s, ev)) && Apply(s, ev).page == s.page
      && Apply(s, ev).pos == s.pos + LengthAt(s.mem[s.page], s.pos)
      && Apply(s, ev).clock == NanoAt(s.mem[s.page], s.pos) && Apply(s, ev).mem.Keys == s.mem.Keys
      && Log(Apply(s, ev)) == Log(s) + [s.mem[s.page][s.pos + 1..Apply(s, ev).pos]]
  {
    StoreKeepsInv(s, Put(s.page, s.pos, WRITTEN));
  }

  lemma MarkLegal(s: Sys, off: nat)
    requires AtWritable(s) && s.pos < off < PAGE_SIZE
    ensures var ev := Put(s.page, off, RAW);
      && Legal(s, ev) && Apply(s, ev) == WithPage(s, s.page, s.mem[s.page][off := RAW])
      && Inv(Apply(s, ev)) && Log(Apply(s, ev)) == Log(s)
  {
    StoreKeepsInv(s, Put(s.page, off, RAW));
  }

  /** What an append must have done: moved the cursor over one frame that says what was asked. */
  ghost predicate Appended(s: Sys, s': Sys, req: Request) {
    && Inv(s) && Inv(s') && s'.clock == req.nano
    && |Log(s')| == |Log(s)| + 1 && Log(s) <= Log(s') && Says(Log(s')[|Log(s)|], req)
  }

  /** The next status is stored: the frame is complete, but not yet published. */
  lemma MarkRun(s: Sys, req: Request)
    requires AtWritable(s) && Imaged(s.mem[s.page], s.pos, req)
    ensures var ev := Put(s.page, s.pos + FrameLength(req), RAW);
      && Legal(s, ev)
      && var s1 := Apply(s, ev);
      && Inv(s1) && Log(s1) == Log(s) && s1.page == s.page && s1.pos == s.pos && s1.clock == s.clock && s1.mem.Keys == s.mem.Keys
      && s.page in s1.mem && CommitReady(s1.mem[s.page], s.pos) && LengthAt(s1.mem[s.page], s.pos) == FrameLength(req)
      && NanoAt(s1.mem[s.page], s.pos) == req.nano
      && Says(s1.mem[s.page][s.pos + 1..s.pos + FrameLength(req)], req)
  {
    hide Stamped, Says, Chain, Frames, LengthAt, NanoAt, CommitReady, Log, Legal, Apply;
    var pg := s.mem[s.page];
    MarkedPage(pg, s.pos, req);
    MarkLegal(s, s.pos + FrameLength(req));
    ImagedSays(pg, s.pos, req);
  }

  /** Storing the next status and then this one publishes the frame. */
  lemma PublishRun(s: Sys, req: Request)
    requires AtWritable(s) && Imaged(s.mem[s.page], s.pos, req) && req.nano >= s.clock && s.page + 1 !in s.mem
    ensures var evs := [Put(s.page, s.pos + FrameLength(req), RAW), Put(s.page, s.pos, WRITTEN)];
      && LegalAll(s, evs) && Appended(s, ApplyAll(s, evs), req) && ApplyAll(s, evs).mem.Keys == s.mem.Keys
      && ApplyAll(s, evs).page == s.page && ApplyAll(s, evs).pos == s.pos + FrameLength(req)
  {
    hide Shape, Stamped, Says, Chain, Frames, LegalAll, ApplyAll, LengthAt, NanoAt, CommitReady, Log, Legal, Apply, Imaged;
    var e1, e2 := Put(s.page, s.pos + FrameLength(req), RAW), Put(s.page, s.pos, WRITTEN);
    MarkRun(s, req);
    PublishLegal(Apply(s, e1), req);
    TwoRun(s, e1, e2);
  }

  lemma TwoRun(s: Sys, e1: Event, e2: Event)
    requires Legal(s, e1) && Legal(Apply(s, e1), e2)
    ensures LegalAll(s, [e1, e2]) && ApplyAll(s, [e1, e2]) == Apply(Apply(s, e1), e2)
  {
    var s1 := Apply(s, e1);
    assert [e1, e2][1..] == [e2] && [e2][1..] == [];
    assert LegalAll(Apply(s1, e2), []);
    assert LegalAll(s1, [e2]) && ApplyAll(s1, [e2]) == ApplyAll(Apply(s1, e2), []);
  }

  lemma {:induction false} RunInv(s: Sys, evs: seq<Event>)
    requires Inv(s) && LegalAll(s, evs)
    ensures Inv(ApplyAll(s, evs)) && Log(s) <= Log(ApplyAll(s, evs))
    decreases |evs|
  {
    if evs != [] {
      StoreKeepsInv(s, evs[0]);
      RunInv(Apply(s, evs[0]), evs[1..]);
    }
  }

  /** Stores of a run that never touch the cursor's status byte leave the log as it is. */
  ghost predicate OffCursor(s: Sys, evs: seq<Event>) {
    forall i :: 0 <= i < |evs| ==>
      evs[i].Put? && !(evs[i].page == s.page && evs[i].off == s.pos) && !(s.page == 0 && evs[i].off == 0)
  }

  lemma {:induction false} OffCursorLog(s: Sys, evs: seq<Event>)
    requires Inv(s) && LegalAll(s, evs) && OffCursor(s, evs)
    ensures Inv(ApplyAll(s, evs)) && Log(ApplyAll(s, evs)) == Log(s)
    decreases |evs|
  {
    if evs != [] {
      StoreKeepsInv(s, evs[0]);
      var s' := Apply(s, evs[0]);
      assert s'.page == s.page && s'.pos == s.pos;
      OffCursorLog(s', evs[1..]);
    }
  }

  lemma {:induction false} PutAllOff(s: Sys, p: nat, ps: seq<Patch>)
    requires AllQuiet(s, p, ps)
    ensures OffCursor(s, PutAll(p, ps))
    decreases |ps|
  {
    if ps != [] {
      PutAllOff(s, p, ps[1..]);
    }
  }

  /** Once its fields are stored the frame is in the page but not yet in the log. */
  lemma FieldsStored(s: Sys, req: Request)
    requires AtWritable(s) && ValidRequest(req)
    ensures var fields := PutAll(s.page, FramePatches(s.pos, req));
      && LegalAll(s, fields) && AtWritable(ApplyAll(s, fields))
      && ApplyAll(s, fields) == WithPage(s, s.page, AfterFields(s, req)) && Log(ApplyAll(s, fields)) == Log(s)
      && Imaged(AfterFields(s, req), s.pos, req)
      && ApplyAll(s, fields).mem.Keys == s.mem.Keys && ApplyAll(s, fields).clock == s.clock
  {
    FieldsRun(s, req);
    FrameQuiet(s, req);
    PutAllOff(s, s.page, FramePatches(s.pos, req));
    OffCursorLog(s, PutAll(s.page, FramePatches(s.pos, req)));
    FrameImaged(s.mem[s.page], s.pos, req);
  }

  lemma AppendedLater(s: Sys, s1: Sys, s2: Sys, req: Request)
    requires Inv(s) && Inv(s1) && Log(s1) == Log(s) && Appended(s1, s2, req)
    ensures Appended(s, s2, req)
  {
  }

  /** An append to a page with room is legal, and the log grows by one frame that says what was asked. */
  lemma FrameRun(s: Sys, req: Request)
    requires AtWritable(s) && ValidRequest(req) && req.nano >= s.clock && s.page + 1 !in s.mem
    ensures var evs := FrameProgram(s.page, s.pos, req);
      && LegalAll(s, evs) && Appended(s, ApplyAll(s, evs), req) && ApplyAll(s, evs).mem.Keys == s.mem.Keys
      && ApplyAll(s, evs).page == s.page && ApplyAll(s, evs).pos == s.pos + FrameLength(req)
  {
    hide Inv, LegalAll, ApplyAll, Legal, Apply, Says, Log, FramePatches, PutAll, AfterFields, Imaged, Appended;
    var fields := PutAll(s.page, FramePatches(s.pos, req));
    var ends := [Put(s.page, s.pos + FrameLength(req), RAW), Put(s.page, s.pos, WRITTEN)];
    FieldsStored(s, req);
    var s1 := ApplyAll(s, fields);
    PublishRun(s1, req);
    RunConcat(s, fields, ends);
    AppendedLater(s, s1, ApplyAll(s1, ends), req);
  }
}
