/**
 The bytes of one journal page: a page header, then frames laid end to end. A frame starts with its
 status byte; the status of the byte after the last written frame tells whether the page is open.
 */
module JournalLayout {
  import opened Bytes

  const RAW: byte := 0
  const WRITTEN: byte := 1
  const PAGE_END: byte := 2

  const PAGE_INITED: byte := 1
  const FRAME_VERSION := 2

  const PAGE_SIZE: nat := 134217728
  const HEADROOM: nat := 2097152

  /** Size of the packed page header: the first frame starts here. */
  const PAGE_INIT: nat := 137
  const BASIC_HEADER: nat := 38
  const ERROR_MSG_MAX: nat := 100
  const ERROR_HEADER: nat := 138

  // Offsets inside the page header.
  const H_NAME: nat := 1
  const H_PAGE_NUM: nat := 31
  const H_START_NANO: nat := 33
  const H_CLOSE_NANO: nat := 41
  const H_FRAME_NUM: nat := 49
  const H_LAST_POS: nat := 53
  const H_VERSION: nat := 57

  // Offsets inside a frame header.
  const F_SOURCE: nat := 1
  const F_NANO: nat := 3
  const F_LENGTH: nat := 11
  const F_MSG_TYPE: nat := 19
  const F_LAST_FLAG: nat := 21
  const F_REQ_ID: nat := 22
  const F_EXTRA_NANO: nat := 26
  const F_ERR_ID: nat := 34

  type PageBytes = seq<byte>

  /** What a reader can see of a frame once it is written: every byte after the status byte. */
  type Raw = seq<byte>

  function ZeroPage(): (pg: PageBytes)
    ensures |pg| == PAGE_SIZE
  {
    seq(PAGE_SIZE, _ => 0)
  }

  function Field(bs: seq<byte>, off: nat, w: nat): int
    requires off + w <= |bs|
  {
    Signed(LeVal(bs[off..off + w]), w)
  }

  function LengthAt(pg: PageBytes, pos: nat): int
    requires pos + BASIC_HEADER <= |pg|
  {
    Field(pg, pos + F_LENGTH, 4)
  }

  function NanoAt(pg: PageBytes, pos: nat): int
    requires pos + BASIC_HEADER <= |pg|
  {
    Field(pg, pos + F_NANO, 8)
  }

  function StartNano(pg: PageBytes): int
    requires |pg| == PAGE_SIZE
  {
    Field(pg, H_START_NANO, 8)
  }

  /** Loading a page that says another frame version is refused with an exception; 0 is a version not yet stored. */
  predicate VersionMismatch(pg: PageBytes)
    requires |pg| == PAGE_SIZE
  {
    Field(pg, H_VERSION, 2) > 0 && Field(pg, H_VERSION, 2) != FRAME_VERSION
  }

  /** A page is refused exactly when another version of the program has stored its number there. */
  lemma VersionRefused(pg: PageBytes, v: int)
    requires |pg| == PAGE_SIZE && FitsSigned(v, 2) && pg[H_VERSION..H_VERSION + 2] == Le(v, 2)
    ensures VersionMismatch(pg) <==> v > 0 && v != FRAME_VERSION
  {
    LeSigned(v, 2);
  }

  /** The version bytes of a page are zero or those this program stores. */
  predicate VersionKept(pg: PageBytes)
    requires |pg| == PAGE_SIZE
  {
    (pg[H_VERSION] == 0 || pg[H_VERSION] == FRAME_VERSION) && pg[H_VERSION + 1] == 0
  }

  predicate VersionStore(off: nat, b: byte) {
    (off == H_VERSION ==> b == FRAME_VERSION) && (off == H_VERSION + 1 ==> b == 0)
  }

  lemma VersionMatches(pg: PageBytes)
    requires |pg| == PAGE_SIZE && VersionKept(pg)
    ensures !VersionMismatch(pg)
  {
    var bs := pg[H_VERSION..H_VERSION + 2];
    assert bs[0] == pg[H_VERSION] && bs[1..] == [0] && [0 as byte][1..] == [];
    assert LeVal([0]) == 0 && LeVal(bs) == pg[H_VERSION];
    SpanValues();
  }

  /** The time stamp of a frame as a reader sees it; the bytes of a Raw start one after the status byte. */
  function NanoOf(r: Raw): int {
    if |r| < BASIC_HEADER - 1 then 0 else Field(r, F_NANO - 1, 8)
  }

  /** From `pos` on, the page holds written frames end to end, up to some byte that is not WRITTEN. */
  predicate Chain(pg: PageBytes, pos: nat)
    decreases |pg| - pos
  {
    pos < |pg| &&
    (pg[pos] == WRITTEN ==>
       pos + BASIC_HEADER <= |pg| && LengthAt(pg, pos) >= BASIC_HEADER && Chain(pg, pos + LengthAt(pg, pos)))
  }

  /** Where scanning over written frames from `pos` stops. */
  function ScanEnd(pg: PageBytes, pos: nat): (e: nat)
    requires Chain(pg, pos)
    ensures pos <= e < |pg| && pg[e] != WRITTEN
    decreases |pg| - pos
  {
    if pg[pos] == WRITTEN then ScanEnd(pg, pos + LengthAt(pg, pos)) else pos
  }

  /** The frames met by scanning from `pos`. */
  function Frames(pg: PageBytes, pos: nat): seq<Raw>
    requires Chain(pg, pos)
    decreases |pg| - pos
  {
    if pg[pos] == WRITTEN then
      var next := pos + LengthAt(pg, pos);
      assert Chain(pg, next);
      [pg[pos + 1..next]] + Frames(pg, next)
    else []
  }

  /** Where scanning stops when it also stops at a frame stamped `t` or later. */
  function ScanToTime(pg: PageBytes, pos: nat, t: int): (e: nat)
    requires Chain(pg, pos)
    ensures Chain(pg, e) && pos <= e
    ensures pg[e] == WRITTEN ==> NanoAt(pg, e) >= t
    ensures ScanEnd(pg, e) == ScanEnd(pg, pos)
    decreases |pg| - pos
  {
    if pg[pos] == WRITTEN && NanoAt(pg, pos) < t then ScanToTime(pg, pos + LengthAt(pg, pos), t) else pos
  }

  /** Number of frames skipped by ScanToTime. */
  function CountToTime(pg: PageBytes, pos: nat, t: int): nat
    requires Chain(pg, pos)
    decreases |pg| - pos
  {
    if pg[pos] == WRITTEN && NanoAt(pg, pos) < t then 1 + CountToTime(pg, pos + LengthAt(pg, pos), t) else 0
  }

  lemma LengthKept(pg: PageBytes, pos: nat, off: nat, b: byte)
    requires pos + BASIC_HEADER <= |pg| && off < |pg| && !(pos + F_LENGTH <= off < pos + F_LENGTH + 4)
    ensures LengthAt(pg[off := b], pos) == LengthAt(pg, pos)
  {
    assert pg[off := b][pos + F_LENGTH..pos + F_LENGTH + 4] == pg[pos + F_LENGTH..pos + F_LENGTH + 4];
  }

  /** A store that misses the written frames and the status byte after them changes nothing a scan sees. */
  lemma {:induction false} StoreElsewhere(pg: PageBytes, pos: nat, off: nat, b: byte)
    requires Chain(pg, pos) && off < |pg|
    requires off < pos || off > ScanEnd(pg, pos)
    ensures Chain(pg[off := b], pos)
    ensures ScanEnd(pg[off := b], pos) == ScanEnd(pg, pos)
    ensures Frames(pg[off := b], pos) == Frames(pg, pos)
    decreases |pg| - pos
  {
    hide LengthAt;
    var pg' := pg[off := b];
    if pg[pos] == WRITTEN {
      var next := pos + LengthAt(pg, pos);
      StoreElsewhere(pg, next, off, b);
      LengthKept(pg, pos, off, b);
      assert pg'[pos + 1..next] == pg[pos + 1..next];
    }
  }

  /** The frame at `e` can be published: its length is set and the next status byte is already RAW. */
  predicate CommitReady(pg: PageBytes, e: nat) {
    e + BASIC_HEADER <= |pg| &&
    LengthAt(pg, e) >= BASIC_HEADER && e + LengthAt(pg, e) < |pg| && pg[e + LengthAt(pg, e)] == RAW
  }

  /** Storing WRITTEN over the end status appends exactly one frame. */
  lemma {:induction false} StoreWritten(pg: PageBytes, pos: nat, e: nat)
    requires Chain(pg, pos) && e == ScanEnd(pg, pos) && CommitReady(pg, e)
    ensures Chain(pg[e := WRITTEN], pos)
    ensures ScanEnd(pg[e := WRITTEN], pos) == e + LengthAt(pg, e)
    ensures Frames(pg[e := WRITTEN], pos) == Frames(pg, pos) + [pg[e + 1..e + LengthAt(pg, e)]]
    decreases |pg| - pos
  {
    hide LengthAt;
    var pg' := pg[e := WRITTEN];
    LengthKept(pg, pos, e, WRITTEN);
    var next := pos + LengthAt(pg, pos);
    assert pg'[pos + 1..next] == pg[pos + 1..next];
    if pg[pos] == WRITTEN {
      StoreWritten(pg, next, e);
    } else {
      assert Chain(pg', next);
      assert Frames(pg', next) == [];
    }
  }

  /** Storing anything but WRITTEN over the end status leaves the frames as they are. */
  lemma {:induction false} StoreClosed(pg: PageBytes, pos: nat, e: nat, b: byte)
    requires Chain(pg, pos) && e == ScanEnd(pg, pos) && b != WRITTEN
    ensures Chain(pg[e := b], pos)
    ensures ScanEnd(pg[e := b], pos) == e
    ensures Frames(pg[e := b], pos) == Frames(pg, pos)
    decreases |pg| - pos
  {
    hide LengthAt;
    var pg' := pg[e := b];
    if pg[pos] == WRITTEN {
      var next := pos + LengthAt(pg, pos);
      StoreClosed(pg, next, e, b);
      LengthKept(pg, pos, e, b);
      assert pg'[pos + 1..next] == pg[pos + 1..next];
    }
  }

  /** Overwrites a stretch of a page. */
  function Write(pg: PageBytes, off: nat, bs: seq<byte>): (r: PageBytes)
    requires off + |bs| <= |pg|
    ensures |r| == |pg|
    ensures r[off..off + |bs|] == bs
    ensures forall i :: 0 <= i < |pg| && !(off <= i < off + |bs|) ==> r[i] == pg[i]
  {
    pg[..off] + bs + pg[off + |bs|..]
  }
}
