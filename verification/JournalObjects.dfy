/** The objects a journal client works with: the frame cursor, the page, the journal and its writer. */
module JournalObjects {
  import opened Bytes
  import opened Parts
  import opened JournalLayout
  import opened JournalProtocol
  import opened JournalInvariant
  import opened JournalProgram
  import opened JournalWriterProof
  import opened JournalTurnProof
  import opened JournalReader
  import opened JournalSeek
  import opened JournalFiles

  const TIME_FROM_FIRST := 0
  const TIME_TO_LAST := -1

  /** A frame header somewhere in a mapped page. */
  class Frame {
    const files: PageFiles
    const page: nat
    const address: nat

    constructor (files: PageFiles, page: nat, address: nat)
      ensures this.files == files && this.page == page && this.address == address
    {
      this.files, this.page, this.address := files, page, address;
    }

    ghost predicate Fits(len: nat)
      reads files, files.Arrays
    {
      files.Valid() && page in files.pages && address + len <= PAGE_SIZE
    }

    /** Stores one integer field of the header. */
    method SetField(off: nat, w: nat, n: int)
      requires Fits(off + w)
      modifies files, files.Arrays
      ensures files.Valid() && files.Arrays == old(files.Arrays) && files.pages == old(files.pages)
      ensures files.trace == old(files.trace) + Puts(page, address + off, Le(n, w))
    {
      files.PutBytes(page, address + off, Le(n, w));
    }

    method SetData(data: seq<byte>)
      requires Fits(BASIC_HEADER + |data|)
      modifies files, files.Arrays
      ensures files.Valid() && files.Arrays == old(files.Arrays) && files.pages == old(files.pages)
      ensures files.trace == old(files.trace) + Puts(page, address + F_ERR_ID, Le(0, 4))
        + Puts(page, address + BASIC_HEADER, data) + Puts(page, address + F_LENGTH, Le(BASIC_HEADER + |data|, 4))
    {
      SetField(F_ERR_ID, 4, 0);
      files.PutBytes(page, address + BASIC_HEADER, data);
      SetField(F_LENGTH, 4, BASIC_HEADER + |data|);
    }

    method SetErrorData(errorId: int, errorMsg: Option<seq<byte>>, data: seq<byte>)
      requires Fits(ERROR_HEADER + |data|) || (errorId == 0 && Fits(BASIC_HEADER + |data|))
      modifies files, files.Arrays
      ensures files.Valid() && files.Arrays == old(files.Arrays) && files.pages == old(files.pages)
      ensures var h := if errorId == 0 then BASIC_HEADER else ERROR_HEADER;
        files.trace == old(files.trace) + Puts(page, address + F_ERR_ID, Le(errorId, 4))
          + (if errorId != 0 && errorMsg.Some? then Puts(page, address + BASIC_HEADER, Padded(errorMsg.value)) else [])
          + Puts(page, address + h, data) + Puts(page, address + F_LENGTH, Le(h + |data|, 4))
    {
      hide Puts, Le;
      if errorId == 0 {
        SetData(data);
      } else {
        SetField(F_ERR_ID, 4, errorId);
        if errorMsg.Some? {
          files.PutBytes(page, address + BASIC_HEADER, Padded(errorMsg.value));
        }
        files.PutBytes(page, address + ERROR_HEADER, data);
        SetField(F_LENGTH, 4, ERROR_HEADER + |data|);
      }
    }

    /** The length the frame announces in memory. */
    ghost function Length(): int
      requires Fits(BASIC_HEADER)
      reads files, files.Arrays
    {
      PagesMatch(files);
      LengthAt(files.Mem()[page], address)
    }

    method SetStatusWritten()
      requires Fits(BASIC_HEADER) && Length() >= 0 && address + Length() < PAGE_SIZE
      modifies files, files.Arrays
      ensures files.Valid() && files.Arrays == old(files.Arrays) && files.pages == old(files.pages)
      ensures files.trace == old(files.trace) + [Put(page, address + old(Length()), RAW), Put(page, address, WRITTEN)]
    {
      PagesMatch(files);
      var len := files.GetField(page, address + F_LENGTH, 4);
      hide PageFiles.Valid, MemAfter, Field;
      files.PutByte(page, address + len, RAW);
      files.PutByte(page, address, WRITTEN);
    }
  }

  /** A page in use, with the cursor that moves over its frames. */
  class Page {
    const files: PageFiles
    const pageNum: nat
    var position: nat
    var frameNum: nat

    constructor (files: PageFiles, pageNum: nat)
      ensures this.files == files && this.pageNum == pageNum && position == PAGE_INIT && frameNum == 0
    {
      this.files, this.pageNum := files, pageNum;
      position, frameNum := PAGE_INIT, 0;
    }

    /** The mapped bytes, well formed from the cursor on. */
    ghost predicate Valid()
      reads this, files, files.Arrays
    {
      files.Valid() && pageNum in files.pages && pageNum in files.Mem() && |files.Mem()[pageNum]| == PAGE_SIZE
      && Chain(files.Mem()[pageNum], position)
    }

    ghost function Bytes(): PageBytes
      requires Valid()
      reads this, files, files.Arrays
    {
      files.Mem()[pageNum]
    }

    method PassFrame()
      requires Valid() && Bytes()[position] == WRITTEN
      modifies this
      ensures Valid() && position == old(position) + LengthAt(Bytes(), old(position)) && frameNum == old(frameNum) + 1
    {
      var len := files.GetField(pageNum, position + F_LENGTH, 4);
      position := position + len;
      frameNum := frameNum + 1;
    }

    method PassWrittenFrame()
      requires Valid()
      modifies this
      ensures Valid() && position == ScanEnd(Bytes(), old(position))
      ensures frameNum == old(frameNum) + |Frames(Bytes(), old(position))|
    {
      ghost var pg := Bytes();
      var status := files.GetByte(pageNum, position);
      while status == WRITTEN
        invariant Valid() && Bytes() == pg && status == pg[position]
        invariant ScanEnd(pg, position) == ScanEnd(pg, old(position))
        invariant frameNum + |Frames(pg, position)| == old(frameNum) + |Frames(pg, old(position))|
        decreases PAGE_SIZE - position
      {
        PassFrame();
        status := files.GetByte(pageNum, position);
      }
    }

    /** Whether the cursor is on a written frame stamped before `time`. */
    method IsBefore(time: int) returns (r: bool)
      requires Valid()
      ensures r <==> Bytes()[position] == WRITTEN && NanoAt(Bytes(), position) < time
    {
      var status := files.GetByte(pageNum, position);
      if status != WRITTEN { return false; }
      var nano := files.GetField(pageNum, position + F_NANO, 8);
      r := nano < time;
    }

    method PassToTime(time: int)
      requires Valid()
      modifies this
      ensures Valid() && position == ScanToTime(Bytes(), old(position), time)
      ensures frameNum == old(frameNum) + CountToTime(Bytes(), old(position), time)
    {
      hide LengthAt, NanoAt;
      ghost var pg := Bytes();
      var before := IsBefore(time);
      while before
        invariant Valid() && Bytes() == pg && before == (pg[position] == WRITTEN && NanoAt(pg, position) < time)
        invariant ScanToTime(pg, position, time) == ScanToTime(pg, old(position), time)
        invariant frameNum + CountToTime(pg, position, time) == old(frameNum) + CountToTime(pg, old(position), time)
        decreases PAGE_SIZE - position
      {
        PassFrame();
        before := IsBefore(time);
      }
    }

    /** Moves to the end of the frames; there is room if the end is open and the headroom is free. */
    method LocateWritableFrame() returns (r: Option<nat>)
      requires Valid()
      modifies this
      ensures Valid() && position == ScanEnd(Bytes(), old(position))
      ensures frameNum == old(frameNum) + |Frames(Bytes(), old(position))|
      ensures r == if Bytes()[position] == RAW && Writable(position) then Some(position) else None
    {
      PassWrittenFrame();
      var status := files.GetByte(pageNum, position);
      r := if status == RAW && position + HEADROOM < PAGE_SIZE then Some(position) else None;
    }

    method LocateReadableFrame() returns (r: Option<nat>)
      requires Valid()
      ensures r == if Bytes()[position] == WRITTEN then Some(position) else None
    {
      var status := files.GetByte(pageNum, position);
      r := if status == WRITTEN then Some(position) else None;
    }

    method IsAtPageEnd() returns (r: bool)
      requires Valid()
      ensures r <==> Bytes()[position] == PAGE_END
    {
      var status := files.GetByte(pageNum, position);
      r := status == PAGE_END;
    }

    method FinishPage(closeNano: int)
      requires files.Valid() && pageNum in files.pages && position < PAGE_SIZE
      modifies files, files.Arrays
      ensures files.Valid() && files.Arrays == old(files.Arrays) && files.pages == old(files.pages)
      ensures files.trace == old(files.trace) + FinishProgram(pageNum, position, frameNum, closeNano)
    {
      FinishHeader(files, pageNum, position, frameNum, closeNano);
      files.PutByte(pageNum, position, PAGE_END);
    }
  }

  method FinishHeader(files: PageFiles, pageNum: nat, position: nat, frameNum: nat, closeNano: int)
    requires files.Valid() && pageNum in files.pages
    modifies files, files.Arrays
    ensures files.Valid() && files.Arrays == old(files.Arrays) && files.pages == old(files.pages)
    ensures files.trace == old(files.trace) + PutAll(pageNum, FinishPatches(position, frameNum, closeNano))
  {
    ThreePatches(pageNum, FinishPatches(position, frameNum, closeNano));
    hide Puts, PageFiles.Valid, PutAll;
    ghost var before := files.trace;
    files.PutBytes(pageNum, H_CLOSE_NANO, Le(closeNano, 8));
    files.PutBytes(pageNum, H_FRAME_NUM, Le(frameNum, 4));
    files.PutBytes(pageNum, H_LAST_POS, Le(position, 4));
    ghost var a, b := Puts(pageNum, H_CLOSE_NANO, Le(closeNano, 8)), Puts(pageNum, H_FRAME_NUM, Le(frameNum, 4));
    Regroup(before, a, b);
    Regroup(before, a + b, Puts(pageNum, H_LAST_POS, Le(position, 4)));
  }

  lemma ThreePatches(p: nat, ps: seq<Patch>)
    requires |ps| == 3
    ensures PutAll(p, ps) == Puts(p, ps[0].off, ps[0].bytes) + Puts(p, ps[1].off, ps[1].bytes) + Puts(p, ps[2].off, ps[2].bytes)
  {
    assert PutAll(p, ps[1..][1..][1..]) == [];
    assert PutAll(p, ps[1..][1..]) == Puts(p, ps[2].off, ps[2].bytes) + [];
    assert PutAll(p, ps[1..]) == Puts(p, ps[1].off, ps[1].bytes) + PutAll(p, ps[1..][1..]);
  }

  lemma PutAllConcat(p: nat, a: seq<Patch>, b: seq<Patch>)
    ensures PutAll(p, a + b) == PutAll(p, a) + PutAll(p, b)
    decreases |a|
  {
    if a == [] {
      assert a + b == b;
    } else {
      assert (a + b)[1..] == a[1..] + b;
      PutAllConcat(p, a[1..], b);
    }
  }
}
