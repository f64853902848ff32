/** The page engine as an object: its methods, each against the function of the state it stands for. */
module EngineObject {
  import opened EngineState
  import opened PageNames
  import opened Parts

  class PageEngine {
    const build: Build
    const commBuffer: array<Slot>
    var clientJournals: map<string, Client>
    var pidClient: map<int, seq<string>>
    var fileWriterCounts: map<Key, int>
    var fileReaderCounts: map<Key, int>
    var fileAddrs: set<string>
    var files: set<string>
    var maxIdx: nat
    var scan: nat
    ghost var undefined: bool

    ghost function State(): Engine
      reads this, commBuffer
    {
      Engine(commBuffer[..], clientJournals, pidClient, fileWriterCounts, fileReaderCounts, fileAddrs, files, maxIdx, scan, undefined)
    }

    constructor (build: Build, files: set<string>)
      ensures fresh(commBuffer) && this.build == build && Initial(State()) && State().files == files
    {
      this.build := build;
      commBuffer := new Slot[TABLE_SLOTS](_ => FRESH_SLOT);
      clientJournals, pidClient, fileWriterCounts, fileReaderCounts := map[], map[], map[], map[];
      fileAddrs := {};
      this.files := files;
      maxIdx, scan := 0, 0;
      undefined := false;
      new;
      assert commBuffer[..] == seq(TABLE_SLOTS, _ => FRESH_SLOT);
    }

    method RegisterJournal(name: string) returns (idx: int)
      requires commBuffer.Length == TABLE_SLOTS
      modifies this, commBuffer
      ensures (State(), idx) == RegJournal(build, old(State()), name)
    {
      var i := 0;
      while i < MAX_USERS
        invariant i <= MAX_USERS && FirstRaw(commBuffer[..], 0) == FirstRaw(commBuffer[..], i)
        invariant State() == old(State())
      {
        if commBuffer[i].status == RAW { break; }
        i := i + 1;
      }
      if build.Repaired? && i >= MAX_USERS { return -1; }
      if i > maxIdx { maxIdx := i; }
      commBuffer[i] := commBuffer[i].(status := OCCUPIED, last := 0);
      if name !in clientJournals { return -1; }
      var info := clientJournals[name];
      clientJournals := clientJournals[name := info.(indices := info.indices + [i])];
      return i;
    }

    method RegisterClient(name: string, pid: int, isWriter: bool) returns (ok: bool)
      modifies this
      ensures (State(), ok) == RegClient(old(State()), name, pid, isWriter)
    {
      if name in clientJournals { return false; }
      pidClient := pidClient[pid := (if pid in pidClient then pidClient[pid] else []) + [name]];
      clientJournals := clientJournals[name := Client(pid, isWriter, [])];
      return true;
    }

    method Release(k: Key, isWriter: bool)
      modifies this
      ensures State() == ReleasePage(build, old(State()), k, isWriter)
      ensures scan == old(scan) && maxIdx == old(maxIdx)
    {
      var inWriters := isWriter || build.AsCoded?;
      var counts := if inWriters then fileWriterCounts else fileReaderCounts;
      if k !in counts { return; }
      var left := counts[k] - 1;
      if left != 0 {
        if inWriters { fileWriterCounts := counts[k := left]; } else { fileReaderCounts := counts[k := left]; }
        return;
      }
      if inWriters && !isWriter {
        undefined := true;
        return;
      }
      var otherSideEmpty;
      if isWriter {
        fileWriterCounts := counts - {k};
        otherSideEmpty := k !in fileReaderCounts;
      } else {
        fileReaderCounts := counts - {k};
        otherSideEmpty := k !in fileWriterCounts;
      }
      if otherSideEmpty {
        var path := if build.Repaired? then PathOf(k) else GenPageFullPath(k.name, k.folder, k.page);
        fileAddrs := fileAddrs - {path};
      }
    }

    method Initiate(k: Key, isWriter: bool) returns (status: int)
      modifies this
      ensures (State(), status) == InitiatePage(old(State()), k, isWriter)
      ensures scan == old(scan) && maxIdx == old(maxIdx)
    {
      hide GenPageFullPath;
      var path := PathOf(k);
      if path !in fileAddrs {
        if path !in files {
          if !isWriter { return NON_EXIST; }
        }
        files := files + {path};
        fileAddrs := fileAddrs + {path};
      }
      assert fileAddrs == old(fileAddrs) + {path};
      if isWriter {
        if k in fileWriterCounts { return MORE_THAN_ONE_WRITE; }
        fileWriterCounts := fileWriterCounts[k := 1];
      } else {
        fileReaderCounts := fileReaderCounts[k := if k in fileReaderCounts then fileReaderCounts[k] + 1 else 1];
      }
      return ALLOCATED;
    }

    /** One pass through the body of the loop in start_comm. */
    method ScanOnce()
      requires scan < commBuffer.Length
      modifies this, commBuffer
      ensures State() == Scan(build, old(State()))
    {
      hide ReleasePage, InitiatePage;
      var m := commBuffer[scan];
      if m.status == REQUESTING {
        ghost var before := State();
        if build.Repaired? && m.last > 0 && m.last == m.page {
          commBuffer[scan] := m.(status := ALLOCATED);
          assert commBuffer[..] == before.slots[scan := commBuffer[scan]];
        } else {
          if m.last > 0 && m.last != m.page {
            Release(Key(m.folder, m.name, m.last), m.isWriter);
          }
          var status := Initiate(Wanted(m), m.isWriter);
          ghost var taken := State();
          var last := if build.AsCoded? || status == ALLOCATED then m.page else 0;
          commBuffer[scan] := m.(status := status, last := last);
          assert commBuffer[..] == taken.slots[scan := commBuffer[scan]];
        }
        assert State() == Serve(build, before, scan);
      }
      scan := (scan + 1) % (maxIdx + 1);
    }

    /** The slots of a leaving client, given back one after the other. */
    method GiveBack(indices: seq<nat>)
      requires InTable(State(), indices)
      modifies this, commBuffer
      ensures State() == ExitSlots(build, old(State()), indices)
    {
      hide ReleasePage;
      for n := 0 to |indices|
        invariant InTable(State(), indices) && commBuffer.Length == |old(State()).slots|
        invariant InTable(State(), indices[n..]) && InTable(old(State()), indices)
        invariant ExitSlots(build, State(), indices[n..]) == ExitSlots(build, old(State()), indices)
      {
        ghost var before := State();
        var i := indices[n];
        var m := commBuffer[i];
        if m.status == ALLOCATED { Release(Wanted(m), m.isWriter); }
        ghost var released := State();
        commBuffer[i] := m.(status := RAW);
        assert commBuffer[..] == released.slots[i := m.(status := RAW)];
        assert indices[n..][0] == i && indices[n..][1..] == indices[n + 1..];
      }
    }

    method Exit(name: string)
      requires name in clientJournals ==> InTable(State(), clientJournals[name].indices)
      modifies this, commBuffer
      ensures State() == ExitClient(build, old(State()), name)
    {
      hide ExitSlots, Without;
      if name !in clientJournals { return; }
      var info := clientJournals[name];
      GiveBack(info.indices);
      var left := Filter(if info.pid in pidClient then pidClient[info.pid] else [], name);
      pidClient := if left == [] then pidClient - {info.pid} else pidClient[info.pid := left];
      clientJournals := clientJournals - {name};
    }
  }

  /** remove: the names other than `name`, in their order. */
  method Filter(names: seq<string>, name: string) returns (r: seq<string>)
    ensures r == Without(names, name)
  {
    r := [];
    for n := 0 to |names|
      invariant r + Without(names[n..], name) == Without(names, name)
    {
      assert names[n..][0] == names[n] && names[n..][1..] == names[n + 1..];
      Regroup(r, [names[n]], Without(names[n + 1..], name));
      if names[n] != name { r := r + [names[n]]; }
    }
    assert names[|names|..] == [];
  }
}
