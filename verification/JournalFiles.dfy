/** The mapped page files as objects: fixed-size byte buffers that are written in place. */
module JournalFiles {
  import opened Bytes
  import opened JournalLayout
  import opened JournalProtocol
  import opened JournalProgram

  /** The memory after a list of stores. */
  ghost function MemAfter(mem: Mem, evs: seq<Event>): Mem
    decreases |evs|
  {
    if evs == [] then mem else ApplyMem(MemAfter(mem, evs[..|evs| - 1]), evs[|evs| - 1])
  }

  lemma {:induction false} MemAfterConcat(mem: Mem, a: seq<Event>, b: seq<Event>)
    ensures MemAfter(mem, a + b) == MemAfter(MemAfter(mem, a), b)
    decreases |b|
  {
    if b == [] {
      assert a + b == a;
    } else {
      assert (a + b)[..|a + b| - 1] == a + b[..|b| - 1];
      MemAfterConcat(mem, a, b[..|b| - 1]);
    }
  }

  /** A legal program changes the memory by its stores and by nothing else. */
  lemma {:induction false} ProgramMem(s: Sys, evs: seq<Event>)
    requires LegalAll(s, evs)
    ensures ApplyAll(s, evs).mem == MemAfter(s.mem, evs)
    decreases |evs|
  {
    hide Legal;
    if evs != [] {
      ApplyIsApplyMem(s, evs[0]);
      ProgramMem(Apply(s, evs[0]), evs[1..]);
      assert [evs[0]] + evs[1..] == evs;
      MemAfterConcat(s.mem, [evs[0]], evs[1..]);
      assert MemAfter(s.mem, [evs[0]][..0]) == s.mem;
    }
  }

  lemma ApplyIsApplyMem(s: Sys, ev: Event)
    requires Legal(s, ev)
    ensures Apply(s, ev).mem == ApplyMem(s.mem, ev)
  {
  }

  /** The page files of one journal, mapped into memory and shared by the writer and the readers. The trace
      records every store in order. */
  class PageFiles {
    var pages: map<nat, array<byte>>
    ghost var trace: seq<Event>
    ghost var Arrays: set<array<byte>>
    ghost const base: Mem

    ghost predicate Valid()
      reads this, Arrays
    {
      && (forall k :: k in pages ==> pages[k] in Arrays && pages[k].Length == PAGE_SIZE)
      && (forall j, k :: j in pages && k in pages && j != k ==> pages[j] != pages[k])
      && MemAfter(base, trace) == map k | k in pages :: pages[k][..]
    }

    ghost function Mem(): Mem
      requires Valid()
      reads this, Arrays
    {
      MemAfter(base, trace)
    }

    constructor ()
      ensures Valid() && fresh(Arrays) && trace == [] && Mem() == map[]
    {
      pages := map[];
      trace := [];
      base := map[];
      Arrays := {};
    }

    /** Creates the file of a page; it reads as zeros. */
    method CreatePage(p: nat)
      requires Valid() && p !in pages
      modifies this, Arrays
      ensures Valid() && fresh(Arrays - old(Arrays))
      ensures trace == old(trace) + [Create(p)]
      ensures pages.Keys == old(pages).Keys + {p}
    {
      var a := new byte[PAGE_SIZE](_ => 0);
      ghost var before := map k | k in pages :: pages[k][..];
      pages := pages[p := a];
      Arrays := Arrays + {a};
      trace := trace + [Create(p)];
      assert a[..] == ZeroPage();
      assert (map k | k in pages :: pages[k][..]) == before[p := a[..]];
      assert trace[..|trace| - 1] == old(trace);
    }

    /** One store. */
    method PutByte(p: nat, off: nat, b: byte)
      requires Valid() && p in pages && off < PAGE_SIZE
      modifies this, Arrays
      ensures Valid() && Arrays == old(Arrays) && pages == old(pages)
      ensures trace == old(trace) + [Put(p, off, b)]
    {
      ghost var before := map k | k in pages :: pages[k][..];
      pages[p][off] := b;
      trace := trace + [Put(p, off, b)];
      assert (map k | k in pages :: pages[k][..]) == before[p := before[p][off := b]];
      assert trace[..|trace| - 1] == old(trace);
    }

    /** memcpy into a page, lowest address first. */
    method PutBytes(p: nat, off: nat, bs: seq<byte>)
      requires Valid() && p in pages && off + |bs| <= PAGE_SIZE
      modifies this, Arrays
      ensures Valid() && Arrays == old(Arrays) && pages == old(pages)
      ensures trace == old(trace) + Puts(p, off, bs)
    {
      var i := 0;
      while i < |bs|
        invariant 0 <= i <= |bs|
        invariant Valid() && Arrays == old(Arrays) && pages == old(pages)
        invariant trace == old(trace) + Puts(p, off, bs)[..i]
      {
        PutByte(p, off + i, bs[i]);
        i := i + 1;
      }
    }

    /** The byte a process sees at an address of a mapped page. */
    method GetByte(p: nat, off: nat) returns (b: byte)
      requires Valid() && p in pages && off < PAGE_SIZE
      ensures p in Mem() && |Mem()[p]| == PAGE_SIZE && b == Mem()[p][off]
    {
      b := pages[p][off];
    }

    /** A little-endian field of a mapped page. */
    method GetField(p: nat, off: nat, w: nat) returns (n: int)
      requires Valid() && p in pages && off + w <= PAGE_SIZE
      ensures p in Mem() && |Mem()[p]| == PAGE_SIZE && n == Field(Mem()[p], off, w)
    {
      n := Signed(LeVal(pages[p][off..off + w]), w);
    }
  }

  lemma PagesMatch(f: PageFiles)
    requires f.Valid()
    ensures f.Mem().Keys == f.pages.Keys
    ensures forall k :: k in f.pages ==> |f.Mem()[k]| == PAGE_SIZE && f.Mem()[k] == f.pages[k][..]
  {
  }
}
