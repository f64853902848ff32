/**
 The stores the writer makes, in program order: what one append, one turn of the page and one opening
 of the journal put into memory. Each is a list of single-byte stores.
 */
module JournalProgram {
  import opened Bytes
  import opened JournalLayout
  import opened JournalProtocol

  datatype Option<T> = None | Some(value: T)

  /** One append, as its caller asks for it, with the time the writer reads from its clock. */
  datatype Request = Request(
    source: int, msgType: int, lastFlag: byte, requestId: int, extraNano: int,
    errorId: int, errorMsg: Option<seq<byte>>, data: seq<byte>, nano: int)

  /** What turning to a new page needs: the journal's name and the clock when the new page is loaded
      and the old one finished. */
  datatype Turning = Turning(name: seq<byte>, startNano: int, closeNano: int)

  predicate ValidTurning(t: Turning, clock: int) {
    |t.name| < 30 && FitsSigned(t.startNano, 8) && FitsSigned(t.closeNano, 8) && t.startNano >= clock
  }

  function HeaderLength(req: Request): nat {
    if req.errorId == 0 then BASIC_HEADER else ERROR_HEADER
  }

  function FrameLength(req: Request): nat {
    HeaderLength(req) + |req.data|
  }

  /** Field values that fit their C types, and a frame that fits the room kept free at the page end. */
  predicate ValidRequest(req: Request) {
    && FitsSigned(req.source, 2) && FitsSigned(req.msgType, 2) && FitsSigned(req.requestId, 4)
    && FitsSigned(req.extraNano, 8) && FitsSigned(req.errorId, 4) && FitsSigned(req.nano, 8)
    && FrameLength(req) <= HEADROOM
  }

  /** Some bytes to be stored one after the other at an offset. */
  datatype Patch = Patch(off: nat, bytes: seq<byte>)

  function Puts(p: nat, off: nat, bs: seq<byte>): (evs: seq<Event>)
    ensures |evs| == |bs|
  {
    seq(|bs|, i requires 0 <= i < |bs| => Put(p, off + i, bs[i]))
  }

  function PutAll(p: nat, ps: seq<Patch>): seq<Event> {
    if ps == [] then [] else Puts(p, ps[0].off, ps[0].bytes) + PutAll(p, ps[1..])
  }

  /** strncpy into the message field: cut to its size, or padded with zeros. */
  function Padded(m: seq<byte>): (r: seq<byte>)
    ensures |r| == ERROR_MSG_MAX
  {
    if |m| >= ERROR_MSG_MAX then m[..ERROR_MSG_MAX] else m + seq(ERROR_MSG_MAX - |m|, _ => 0)
  }

  function ErrorPatches(pos: nat, req: Request): seq<Patch> {
    if req.errorId != 0 && req.errorMsg.Some? then [Patch(pos + BASIC_HEADER, Padded(req.errorMsg.value))] else []
  }

  /** The stores of one frame up to its length, data and time, in program order. */
  function FramePatches(pos: nat, req: Request): seq<Patch> {
    [Patch(pos + F_SOURCE, Le(req.source, 2)), Patch(pos + F_MSG_TYPE, Le(req.msgType, 2)),
     Patch(pos + F_LAST_FLAG, [req.lastFlag]), Patch(pos + F_REQ_ID, Le(req.requestId, 4)),
     Patch(pos + F_ERR_ID, Le(req.errorId, 4))]
    + ErrorPatches(pos, req)
    + [Patch(pos + HeaderLength(req), req.data), Patch(pos + F_LENGTH, Le(FrameLength(req), 4)),
       Patch(pos + F_EXTRA_NANO, Le(req.extraNano, 8)), Patch(pos + F_NANO, Le(req.nano, 8))]
  }

  /** One frame at the cursor. The next frame's status becomes RAW before this one's becomes WRITTEN. */
  function FrameProgram(page: nat, pos: nat, req: Request): seq<Event> {
    PutAll(page, FramePatches(pos, req)) + [Put(page, pos + FrameLength(req), RAW), Put(page, pos, WRITTEN)]
  }

  /** Initialising a page that was found RAW. */
  function LoadPatches(page: nat, t: Turning): seq<Patch> {
    [Patch(H_NAME, t.name + [0]), Patch(H_START_NANO, Le(t.startNano, 8)),
     Patch(H_CLOSE_NANO, Le(-1, 8)), Patch(H_PAGE_NUM, Le(page, 2))]
  }

  function LoadProgram(page: nat, t: Turning): seq<Event> {
    PutAll(page, LoadPatches(page, t)) + [Put(page, 0, PAGE_INITED)] + Puts(page, H_VERSION, Le(FRAME_VERSION, 2))
  }

  /** Filling in the header of a page that is left behind. */
  function FinishPatches(pos: nat, frameNum: nat, closeNano: int): seq<Patch> {
    [Patch(H_CLOSE_NANO, Le(closeNano, 8)), Patch(H_FRAME_NUM, Le(frameNum, 4)), Patch(H_LAST_POS, Le(pos, 4))]
  }

  function FinishProgram(page: nat, pos: nat, frameNum: nat, closeNano: int): seq<Event> {
    PutAll(page, FinishPatches(pos, frameNum, closeNano)) + [Put(page, pos, PAGE_END)]
  }

  /** Turning the page: the next page is obtained and initialised before this one is closed. */
  function TurnProgram(page: nat, pos: nat, frameNum: nat, t: Turning): seq<Event> {
    [Create(page + 1)] + LoadProgram(page + 1, t) + FinishProgram(page, pos, frameNum, t.closeNano)
  }

  predicate Writable(pos: nat) {
    pos + HEADROOM < PAGE_SIZE
  }

  /** What locating a writable frame stores: nothing, or one turn of the page. */
  function LocateProgram(page: nat, pos: nat, frameNum: nat, t: Turning): seq<Event> {
    if Writable(pos) then [] else TurnProgram(page, pos, frameNum, t)
  }

  function AppendProgram(page: nat, pos: nat, frameNum: nat, t: Turning, req: Request): seq<Event> {
    if Writable(pos) then FrameProgram(page, pos, req)
    else TurnProgram(page, pos, frameNum, t) + FrameProgram(page + 1, PAGE_INIT, req)
  }

  /** Opening a journal that has no initialised page yet. */
  function OpenProgram(exists1: bool, t: Turning): seq<Event> {
    (if exists1 then [] else [Create(1)]) + LoadProgram(1, t)
  }

  // ---------------------------------------------------------------- running a program

  ghost predicate LegalAll(s: Sys, evs: seq<Event>)
    decreases |evs|
  {
    evs == [] || (Legal(s, evs[0]) && LegalAll(Apply(s, evs[0]), evs[1..]))
  }

  ghost function ApplyAll(s: Sys, evs: seq<Event>): Sys
    requires LegalAll(s, evs)
    decreases |evs|
  {
    if evs == [] then s else ApplyAll(Apply(s, evs[0]), evs[1..])
  }

  lemma {:induction false} RunConcat(s: Sys, a: seq<Event>, b: seq<Event>)
    ensures LegalAll(s, a + b) <==> LegalAll(s, a) && LegalAll(ApplyAll(s, a), b)
    ensures LegalAll(s, a + b) ==> ApplyAll(s, a + b) == ApplyAll(ApplyAll(s, a), b)
    decreases |a|
  {
    if a == [] {
      assert a + b == b;
    } else {
      assert (a + b)[0] == a[0] && (a + b)[1..] == a[1..] + b;
      if Legal(s, a[0]) {
        RunConcat(Apply(s, a[0]), a[1..], b);
      }
    }
  }

  function PatchPage(pg: PageBytes, ps: seq<Patch>): (r: PageBytes)
    requires forall i :: 0 <= i < |ps| ==> ps[i].off + |ps[i].bytes| <= |pg|
    ensures |r| == |pg|
    decreases |ps|
  {
    if ps == [] then pg else PatchPage(Write(pg, ps[0].off, ps[0].bytes), ps[1..])
  }

  predicate Apart(a: Patch, b: Patch) {
    a.off + |a.bytes| <= b.off || b.off + |b.bytes| <= a.off
  }

  /** Bytes outside every patch keep their value. */
  lemma {:induction false} PatchMisses(pg: PageBytes, ps: seq<Patch>, lo: nat, hi: nat)
    requires forall i :: 0 <= i < |ps| ==> ps[i].off + |ps[i].bytes| <= |pg|
    requires lo <= hi <= |pg|
    requires forall i :: 0 <= i < |ps| ==> hi <= ps[i].off || ps[i].off + |ps[i].bytes| <= lo
    ensures PatchPage(pg, ps)[lo..hi] == pg[lo..hi]
    decreases |ps|
  {
    if ps != [] {
      var pg' := Write(pg, ps[0].off, ps[0].bytes);
      PatchMisses(pg', ps[1..], lo, hi);
      assert pg'[lo..hi] == pg[lo..hi];
    }
  }

  /** A patch that no later patch touches can be read back. */
  lemma {:induction false} PatchReads(pg: PageBytes, ps: seq<Patch>, k: nat)
    requires forall i :: 0 <= i < |ps| ==> ps[i].off + |ps[i].bytes| <= |pg|
    requires k < |ps| && forall i :: k < i < |ps| ==> Apart(ps[k], ps[i])
    ensures PatchPage(pg, ps)[ps[k].off..ps[k].off + |ps[k].bytes|] == ps[k].bytes
    decreases |ps|
  {
    var pg' := Write(pg, ps[0].off, ps[0].bytes);
    if k > 0 {
      PatchReads(pg', ps[1..], k - 1);
    } else {
      PatchMisses(pg', ps[1..], ps[0].off, ps[0].off + |ps[0].bytes|);
    }
  }
}
