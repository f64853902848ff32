/**
 Whole runs: one writer executing its programs one store at a time, stopped and reopened at any point,
 interleaved with any number of readers.
 */
module JournalWorld {
  import opened Bytes
  import opened JournalLayout
  import opened JournalProtocol
  import opened JournalInvariant
  import opened JournalProgram
  import opened JournalWriterProof
  import opened JournalTurnProof
  import opened JournalReader
  import opened JournalSeek

  // ---------------------------------------------------------------- what reopening finds

  /** The newest page file. */
  ghost predicate IsLastPage(mem: Mem, n: nat) {
    && (n == 0 ==> mem.Keys == {}) && (n >= 1 ==> n in mem) && forall k :: k in mem ==> k <= n
  }

  /** Where a writer that opens the journal finds itself: at the end of the frames of the newest page. */
  ghost predicate Reopened(mem: Mem, page: nat, pos: nat) {
    IsLastPage(mem, page) && (page >= 1 ==> Chain(mem[page], PAGE_INIT) && pos == ScanEnd(mem[page], PAGE_INIT))
  }

  /** Reopening finds the cursor of the writer that stopped, exactly when it did not stop in that window. */
  lemma ReopenFindsCursor(s: Sys)
    requires Inv(s) && 1 <= s.page
    ensures Reopened(s.mem, s.page, s.pos) <==> !InWindow(s)
    ensures !InWindow(s) ==> forall page: nat, pos: nat :: Reopened(s.mem, page, pos) ==> page == s.page && pos == s.pos
  {
    hide Stamped;
  }

  // ---------------------------------------------------------------- runs

  /** `todo` is what is left of the program being executed, `asked` the append it is for, `committed`
      the appends whose frame has been published. */
  datatype World = World(sys: Sys, todo: seq<Event>, asked: Option<Request>, committed: seq<Request>, readers: seq<Reader>)

  datatype Step =
    | Open(t: Turning)
    | Append(t: Turning, req: Request)
    | Store
    | Restart(t: Turning)
    | Look(i: nat)
    | Reposition(i: nat, nums: seq<nat>, seek: Seek)
    | Expire(i: nat)

  ghost function FrameCount(s: Sys): nat {
    if s.page in s.mem && Chain(s.mem[s.page], PAGE_INIT) then |Frames(s.mem[s.page], PAGE_INIT)| else 0
  }

  /** Restart stands for a stop after any store and a new start: what is left of the program is lost, and
      the new writer makes room at its cursor as it opens the journal. */
  ghost predicate Enabled(w: World, step: Step) {
    match step
    case Open(t) => w.todo == [] && w.sys.page == 0 && ValidTurning(t, w.sys.clock)
    case Append(t, req) =>
      && w.todo == [] && 1 <= w.sys.page && ValidTurning(t, w.sys.clock)
      && ValidRequest(req) && req.nano >= t.startNano
    case Store => w.todo != [] && Legal(w.sys, w.todo[0])
    case Restart(t) => !InWindow(w.sys) && ValidTurning(t, w.sys.clock)
    case Look(i) => i < |w.readers|
    case Reposition(i, nums, _) => i < |w.readers| && IsListing(w.sys.mem, nums) && Present(w.sys.mem, nums)
    case Expire(i) => i < |w.readers|
  }

  ghost function Next(w: World, step: Step): World
    requires Enabled(w, step)
  {
    match step
    case Open(t) => w.(todo := OpenProgram(1 in w.sys.mem, t))
    case Append(t, req) =>
      w.(todo := AppendProgram(w.sys.page, w.sys.pos, FrameCount(w.sys), t, req), asked := Some(req))
    case Store =>
      var s' := Apply(w.sys, w.todo[0]);
      if Commits(w.sys, w.todo[0]) && w.asked.Some? then
        World(s', w.todo[1..], None, w.committed + [w.asked.value], w.readers)
      else w.(sys := s', todo := w.todo[1..])
    case Restart(t) =>
      w.(todo := if w.sys.page == 0 then OpenProgram(1 in w.sys.mem, t)
                 else LocateProgram(w.sys.page, w.sys.pos, FrameCount(w.sys), t),
         asked := None)
    case Look(i) => w.(readers := w.readers[i := ReaderStep(w.sys.mem, w.readers[i])])
    case Reposition(i, nums, seek) => w.(readers := w.readers[i := Sought(w.sys.mem, nums, seek)])
    case Expire(i) => w.(readers := w.readers[i := w.readers[i].(place := Expired)])
  }

  ghost predicate Run(w: World, steps: seq<Step>, w': World)
    decreases |steps|
  {
    if steps == [] then w' == w else Enabled(w, steps[0]) && Run(Next(w, steps[0]), steps[1..], w')
  }

  ghost function Start(readers: nat): World {
    World(Initial, [], None, [], seq(readers, _ => Started))
  }

  // ---------------------------------------------------------------- the invariant of a run

  /** What is left of the program is legal, and finishing it publishes the append asked for and nothing else. */
  ghost predicate Promise(s: Sys, todo: seq<Event>, asked: Option<Request>) {
    && Inv(s) && LegalAll(s, todo)
    && var s' := ApplyAll(s, todo);
       && Inv(s') && (s'.page >= 1 ==> s'.page + 1 !in s'.mem)
       && match asked
          case None => Log(s') == Log(s)
          case Some(req) => |Log(s')| == |Log(s)| + 1 && Log(s) <= Log(s') && Says(Log(s')[|Log(s)|], req)
  }

  ghost predicate Faithful(log: seq<Raw>, committed: seq<Request>) {
    |log| == |committed| && forall i :: 0 <= i < |log| ==> Says(log[i], committed[i])
  }

  ghost predicate WorldInv(w: World) {
    && Inv(w.sys) && Faithful(Log(w.sys), w.committed)
    && (forall i :: 0 <= i < |w.readers| ==> Consistent(w.sys.mem, w.sys.page, w.readers[i]))
    && (if w.todo == [] then w.asked == None && (w.sys.page >= 1 ==> w.sys.page + 1 !in w.sys.mem)
        else Promise(w.sys, w.todo, w.asked))
  }

  /** One store of a program keeps the promise: it publishes the append asked for, or nothing. */
  lemma PromiseStep(s: Sys, todo: seq<Event>, asked: Option<Request>)
    requires Inv(s) && todo != [] && Promise(s, todo, asked)
    ensures var s' := Apply(s, todo[0]);
      && Inv(s')
      && (if Commits(s, todo[0]) then
            && asked.Some? && Promise(s', todo[1..], None)
            && |Log(s')| == |Log(s)| + 1 && Log(s) <= Log(s') && Says(Log(s')[|Log(s)|], asked.value)
          else Promise(s', todo[1..], asked) && Log(s') == Log(s))
  {
    hide Stamped, Shape, Says, Legal, Apply, LogFrom;
    var s' := Apply(s, todo[0]);
    StoreKeepsInv(s, todo[0]);
    RunInv(s', todo[1..]);
  }

  lemma PromiseKept(s: Sys, asked: Option<Request>)
    requires Inv(s) && Promise(s, [], asked)
    ensures asked == None && (s.page >= 1 ==> s.page + 1 !in s.mem)
  {
    hide Stamped, Shape, Says;
  }

  lemma StoreStep(w: World)
    requires WorldInv(w) && Enabled(w, Store)
    ensures WorldInv(Next(w, Store))
  {
    hide Stamped, Shape, Says, Legal, Apply, LogFrom, Commits, Promise, Consistent;
    PromiseStep(w.sys, w.todo, w.asked);
    var w' := Next(w, Store);
    forall i | 0 <= i < |w.readers| ensures Consistent(w'.sys.mem, w'.sys.page, w.readers[i]) {
      InvShape(w'.sys);
      LegalConsistent(w.sys, w.todo[0], w.readers[i]);
    }
    if w'.todo == [] {
      PromiseKept(w'.sys, w'.asked);
    }
  }

  lemma InvShape(s: Sys)
    requires Inv(s)
    ensures Shape(s)
  {
  }

  lemma CountsFrames(s: Sys)
    requires Inv(s) && 1 <= s.page
    ensures s.page in s.mem && Chain(s.mem[s.page], PAGE_INIT) && FrameCount(s) == |Frames(s.mem[s.page], PAGE_INIT)|
  {
  }

  lemma LookStep(w: World, i: nat)
    requires WorldInv(w) && Enabled(w, Look(i))
    ensures WorldInv(Next(w, Look(i)))
  {
    hide Stamped, Shape, Says, LogFrom, Promise, Consistent;
    InvShape(w.sys);
    ReaderStepConsistent(w.sys, w.readers[i]);
  }

  lemma RepositionStep(w: World, step: Step)
    requires WorldInv(w) && Enabled(w, step) && (step.Reposition? || step.Expire?)
    ensures WorldInv(Next(w, step))
  {
    hide Stamped, Shape, Says, LogFrom, Promise, Consistent, Sought;
    InvShape(w.sys);
    if step.Reposition? {
      SoughtConsistent(w.sys, step.nums, step.seek);
    } else {
      ExpireConsistent(w.sys.mem, w.sys.page, w.readers[step.i]);
    }
  }

  lemma ExpireConsistent(mem: Mem, n: nat, r: Reader)
    requires PagesOK(mem, 1, n) && Consistent(mem, n, r)
    ensures Consistent(mem, n, r.(place := Expired))
  {
    ConsistentPrefix(mem, n, r);
  }

  lemma ProgramsStore(page: nat, pos: nat, n: nat, exists1: bool, t: Turning, req: Request)
    ensures AppendProgram(page, pos, n, t, req) != [] && OpenProgram(exists1, t) != [] && TurnProgram(page, pos, n, t) != []
  {
  }

  lemma ProgramStep(w: World, step: Step)
    requires WorldInv(w) && Enabled(w, step) && (step.Open? || step.Append? || step.Restart?)
    ensures WorldInv(Next(w, step))
  {
    hide Stamped, Shape, Says, LogFrom, Consistent, LegalAll, ApplyAll, Apply, Legal, OpenProgram, TurnProgram, AppendProgram, FrameProgram;
    var s := w.sys;
    if step.Append? {
      ProgramsStore(s.page, s.pos, FrameCount(s), true, step.t, step.req);
    } else {
      ProgramsStore(s.page, s.pos, FrameCount(s), 1 in s.mem, step.t, Request(0, 0, 0, 0, 0, 0, None, [], 0));
    }
    if s.page == 0 {
      OpenRun(s, step.t);
    } else {
      CountsFrames(s);
      if step.Append? {
        AppendRun(s, step.t, step.req);
      } else if !Writable(s.pos) {
        TurnRun(s, step.t);
      }
    }
  }

  lemma StepKeeps(w: World, step: Step)
    requires WorldInv(w) && Enabled(w, step)
    ensures WorldInv(Next(w, step))
  {
    hide WorldInv;
    match step
    case Store => StoreStep(w);
    case Look(i) => LookStep(w, i);
    case Reposition(_, _, _) => RepositionStep(w, step);
    case Expire(_) => RepositionStep(w, step);
    case Open(_) => ProgramStep(w, step);
    case Append(_, _) => ProgramStep(w, step);
    case Restart(_) => ProgramStep(w, step);
  }

  lemma {:induction false} RunKeeps(w: World, steps: seq<Step>, w': World)
    requires WorldInv(w) && Run(w, steps, w')
    ensures WorldInv(w')
    decreases |steps|
  {
    hide WorldInv, Enabled, Next;
    if steps != [] {
      StepKeeps(w, steps[0]);
      RunKeeps(Next(w, steps[0]), steps[1..], w');
    }
  }

  lemma StartKeeps(n: nat)
    ensures WorldInv(Start(n))
  {
    InitialInv();
  }

  // ---------------------------------------------------------------- main results

  /** In every run, what each reader has behind it, passed over by its last seek or delivered since, is a
      prefix of the frames published so far, whole and in order, and those frames are exactly the committed
      appends. */
  lemma ReadersDeliverPrefix(n: nat, steps: seq<Step>, w: World, i: nat)
    requires Run(Start(n), steps, w) && i < |w.readers|
    ensures Inv(w.sys) && w.readers[i].Past() <= Log(w.sys) && Faithful(Log(w.sys), w.committed)
  {
    hide Stamped, Says, LogFrom;
    StartKeeps(n);
    RunKeeps(Start(n), steps, w);
    ConsistentPrefix(w.sys.mem, w.sys.page, w.readers[i]);
  }

  /** A reader that began at page 1 and never seeks has passed over nothing, so what it delivered is that prefix. */
  lemma {:induction false} NeverSought(w: World, steps: seq<Step>, w': World, i: nat)
    requires Run(w, steps, w') && i < |w.readers| && w.readers[i].skipped == []
    requires forall k :: 0 <= k < |steps| ==> !(steps[k].Reposition? && steps[k].i == i)
    ensures i < |w'.readers| && w'.readers[i].skipped == [] && w'.readers[i].Past() == w'.readers[i].delivered
    decreases |steps|
  {
    hide Enabled, ReaderStep, Sought;
    if steps != [] {
      StepSkipsNothing(w, steps[0], i);
      NeverSought(Next(w, steps[0]), steps[1..], w', i);
    }
  }

  lemma StepSkipsNothing(w: World, step: Step, i: nat)
    requires Enabled(w, step) && i < |w.readers| && !(step.Reposition? && step.i == i)
    ensures |Next(w, step).readers| == |w.readers| && Next(w, step).readers[i].skipped == w.readers[i].skipped
  {
    hide Legal, Apply, Commits, InPage;
  }

  /** In every run, a reader that has a page keeps one: PAGE_END is only ever seen when the next page is ready. */
  lemma ReaderNeverRestarts(n: nat, steps: seq<Step>, w: World, i: nat)
    requires Run(Start(n), steps, w) && i < |w.readers| && w.readers[i].place != NoPage
    ensures ReaderStep(w.sys.mem, w.readers[i]).place != NoPage
  {
    hide Stamped, Says, LogFrom;
    StartKeeps(n);
    RunKeeps(Start(n), steps, w);
    InvShape(w.sys);
    var r := w.readers[i];
    match r.place
    case Polling(page, pos) =>
      if w.sys.mem[page][pos] == PAGE_END {
        NextPageReady(w.sys, page);
      }
    case Reading(_, _, _) =>
    case Expired =>
  }

  /** In every run, the writer's next store is one the protocol allows: no program is ever blocked half way. */
  lemma NeverBlocked(n: nat, steps: seq<Step>, w: World)
    requires Run(Start(n), steps, w) && w.todo != []
    ensures Enabled(w, Store)
  {
    hide Stamped, Shape, Says, LogFrom, Legal, Run;
    StartKeeps(n);
    RunKeeps(Start(n), steps, w);
  }

  /** No step takes back a frame, and none but a seek of its own a reader's delivery. */
  lemma StepGrows(w: World, step: Step, i: nat)
    requires WorldInv(w) && Enabled(w, step) && i < |w.readers|
    ensures Inv(Next(w, step).sys) && Log(w.sys) <= Log(Next(w, step).sys)
    ensures |Next(w, step).readers| == |w.readers|
    ensures !(step.Reposition? && step.i == i) ==> w.readers[i].Past() <= Next(w, step).readers[i].Past()
  {
    hide Stamped, Shape, Says, LogFrom, Promise, Legal, Apply, Consistent, InPage;
    if step.Store? {
      StoreKeepsInv(w.sys, w.todo[0]);
    }
  }

  /** A writer stopped after any store of an append has published the whole frame or none of it. Stopped
      outside the window, it is found again at its own cursor with its own frame count, so what later writers
      do is what it would have done. */
  lemma StoppedAppend(s: Sys, t: Turning, req: Request, k: nat)
    requires Inv(s) && 1 <= s.page && s.page + 1 !in s.mem && ValidTurning(t, s.clock)
    requires ValidRequest(req) && req.nano >= t.startNano
    requires k <= |AppendProgram(s.page, s.pos, FrameCount(s), t, req)|
    ensures var evs := AppendProgram(s.page, s.pos, FrameCount(s), t, req);
      && LegalAll(s, evs[..k]) && Inv(ApplyAll(s, evs[..k]))
      && var s' := ApplyAll(s, evs[..k]);
         && s'.page >= 1
         && (if k < |evs| then Log(s') == Log(s) else Appended(s, s', req))
         && (Reopened(s'.mem, s'.page, s'.pos) <==> !InWindow(s'))
  {
    hide Stamped, Shape, Says, LogFrom, Legal, Apply, FrameProgram, TurnProgram, Reopened, InWindow, AppendProgram;
    var evs := AppendProgram(s.page, s.pos, FrameCount(s), t, req);
    CountsFrames(s);
    AppendRun(s, t, req);
    PrefixRun(s, evs, k);
    ReopenFindsCursor(ApplyAll(s, evs[..k]));
    if k < |evs| {
      LastCommits(s, t, req, k);
    } else {
      assert evs[..k] == evs;
    }
  }

  lemma PrefixRun(s: Sys, evs: seq<Event>, k: nat)
    requires Inv(s) && 1 <= s.page && LegalAll(s, evs) && k <= |evs|
    ensures LegalAll(s, evs[..k]) && Inv(ApplyAll(s, evs[..k])) && ApplyAll(s, evs[..k]).page >= 1
    ensures LegalAll(ApplyAll(s, evs[..k]), evs[k..]) && ApplyAll(ApplyAll(s, evs[..k]), evs[k..]) == ApplyAll(s, evs)
  {
    hide Stamped, Shape, LogFrom;
    assert evs[..k] + evs[k..] == evs;
    RunConcat(s, evs[..k], evs[k..]);
    RunInv(s, evs[..k]);
    PageGrows(s, evs[..k]);
  }

  lemma {:induction false} PageGrows(s: Sys, evs: seq<Event>)
    requires LegalAll(s, evs)
    ensures ApplyAll(s, evs).page >= s.page
    decreases |evs|
  {
    if evs != [] {
      PageGrows(Apply(s, evs[0]), evs[1..]);
    }
  }

  /** Nothing but the last store of a frame touches the status byte at the cursor. */
  lemma FrameOffCursor(s: Sys, req: Request, k: nat)
    requires AtWritable(s) && ValidRequest(req) && k < |FrameProgram(s.page, s.pos, req)|
    ensures OffCursor(s, FrameProgram(s.page, s.pos, req)[..k])
  {
    hide Stamped, Shape;
    var fields := PutAll(s.page, FramePatches(s.pos, req));
    FrameQuiet(s, req);
    PutAllOff(s, s.page, FramePatches(s.pos, req));
    assert forall i :: 0 <= i < k ==> i < |fields| ==> FrameProgram(s.page, s.pos, req)[i] == fields[i];
  }

  lemma TurnQuietly(s: Sys, turn: seq<Event>, k: nat)
    requires Inv(s) && 1 <= s.page && LegalAll(s, turn) && Inv(ApplyAll(s, turn)) && Log(ApplyAll(s, turn)) == Log(s)
    requires k <= |turn|
    ensures LegalAll(s, turn[..k]) && Inv(ApplyAll(s, turn[..k])) && Log(ApplyAll(s, turn[..k])) == Log(s)
  {
    hide Stamped, Shape, LogFrom;
    PrefixRun(s, turn, k);
    RunInv(s, turn[..k]);
    RunInv(ApplyAll(s, turn[..k]), turn[k..]);
  }

  /** The frame is published by the last store of an append and not before. */
  lemma LastCommits(s: Sys, t: Turning, req: Request, k: nat)
    requires Inv(s) && 1 <= s.page && s.page + 1 !in s.mem && ValidTurning(t, s.clock)
    requires ValidRequest(req) && req.nano >= t.startNano
    requires k < |AppendProgram(s.page, s.pos, FrameCount(s), t, req)|
    requires LegalAll(s, AppendProgram(s.page, s.pos, FrameCount(s), t, req)[..k])
    ensures Inv(ApplyAll(s, AppendProgram(s.page, s.pos, FrameCount(s), t, req)[..k]))
    ensures Log(ApplyAll(s, AppendProgram(s.page, s.pos, FrameCount(s), t, req)[..k])) == Log(s)
  {
    hide Stamped, Shape, LogFrom, FrameProgram, TurnProgram, Legal, Apply, OffCursor;
    var evs := AppendProgram(s.page, s.pos, FrameCount(s), t, req);
    CountsFrames(s);
    if Writable(s.pos) {
      FrameOffCursor(s, req, k);
      OffCursorLog(s, evs[..k]);
    } else {
      var turn := TurnProgram(s.page, s.pos, FrameCount(s), t);
      var frame := FrameProgram(s.page + 1, PAGE_INIT, req);
      TurnRun(s, t);
      if k <= |turn| {
        assert evs[..k] == turn[..k];
        TurnQuietly(s, turn, k);
      } else {
        var s1 := ApplyAll(s, turn);
        assert evs[..k] == turn + frame[..k - |turn|];
        RunConcat(s, turn, frame[..k - |turn|]);
        FrameOffCursor(s1, req, k - |turn|);
        OffCursorLog(s1, frame[..k - |turn|]);
      }
    }
  }

  // ---------------------------------------------------------------- the window

  lemma {:induction false} OffCursorCursor(s: Sys, evs: seq<Event>)
    requires LegalAll(s, evs) && OffCursor(s, evs)
    ensures var s' := ApplyAll(s, evs); s'.page == s.page && s'.pos == s.pos && s'.mem.Keys == s.mem.Keys
    decreases |evs|
  {
    hide TurnReady, CommitReady, StartNano, NanoAt;
    if evs != [] {
      OffCursorCursor(Apply(s, evs[0]), evs[1..]);
    }
  }

  lemma {:induction false} PutAllWithin(p: nat, ps: seq<Patch>)
    requires forall i :: 0 <= i < |ps| ==> ps[i].off + |ps[i].bytes| <= PAGE_INIT
    ensures forall i :: 0 <= i < |PutAll(p, ps)| ==>
      PutAll(p, ps)[i].Put? && PutAll(p, ps)[i].page == p && PutAll(p, ps)[i].off < PAGE_INIT
    decreases |ps|
  {
    if ps != [] {
      PutAllWithin(p, ps[1..]);
    }
  }

  /** Between the file creation and the last store, a turn of the page stores only header bytes. */
  lemma TurnOffCursor(s: Sys, t: Turning, n: nat, k: nat)
    requires 1 <= s.page && PAGE_INIT <= s.pos && |t.name| < 30
    requires 1 <= k < |TurnProgram(s.page, s.pos, n, t)|
    ensures OffCursor(s, TurnProgram(s.page, s.pos, n, t)[1..k])
  {
    hide PutAll, Le;
    var p := s.page + 1;
    PutAllWithin(p, LoadPatches(p, t));
    PutAllWithin(s.page, FinishPatches(s.pos, n, t.closeNano));
  }

  /** Exactly these stops leave the window: after the next page file was created and before PAGE_END is stored. */
  lemma WindowStops(s: Sys, t: Turning, req: Request, k: nat)
    requires Inv(s) && 1 <= s.page && s.page + 1 !in s.mem && ValidTurning(t, s.clock)
    requires ValidRequest(req) && req.nano >= t.startNano
    requires k <= |AppendProgram(s.page, s.pos, FrameCount(s), t, req)|
    requires LegalAll(s, AppendProgram(s.page, s.pos, FrameCount(s), t, req)[..k])
    ensures InWindow(ApplyAll(s, AppendProgram(s.page, s.pos, FrameCount(s), t, req)[..k]))
      <==> !Writable(s.pos) && 1 <= k < |TurnProgram(s.page, s.pos, FrameCount(s), t)|
  {
    hide Stamped, LogFrom, FrameProgram, TurnProgram, LegalAll, ApplyAll, Legal, Apply, OffCursor;
    var evs := AppendProgram(s.page, s.pos, FrameCount(s), t, req);
    CountsFrames(s);
    if Writable(s.pos) {
      FrameStops(s, req, k);
    } else {
      var turn := TurnProgram(s.page, s.pos, FrameCount(s), t);
      TurnRun(s, t);
      if k < |turn| {
        assert evs[..k] == turn[..k];
        TurnStops(s, t, FrameCount(s), k);
      } else {
        var frame := FrameProgram(s.page + 1, PAGE_INIT, req);
        assert evs[..k] == turn + frame[..k - |turn|];
        RunConcat(s, turn, frame[..k - |turn|]);
        FrameStops(ApplyAll(s, turn), req, k - |turn|);
      }
    }
  }

  lemma FrameStops(s: Sys, req: Request, k: nat)
    requires AtWritable(s) && ValidRequest(req) && req.nano >= s.clock && s.page + 1 !in s.mem
    requires k <= |FrameProgram(s.page, s.pos, req)| && LegalAll(s, FrameProgram(s.page, s.pos, req)[..k])
    ensures !InWindow(ApplyAll(s, FrameProgram(s.page, s.pos, req)[..k]))
  {
    hide Stamped, Shape, LogFrom, FrameProgram, LegalAll, ApplyAll, OffCursor;
    FrameRun(s, req);
    var evs := FrameProgram(s.page, s.pos, req);
    if k < |evs| {
      FrameOffCursor(s, req, k);
      OffCursorCursor(s, evs[..k]);
    } else {
      assert evs[..k] == evs;
    }
  }

  lemma TurnStops(s: Sys, t: Turning, n: nat, k: nat)
    requires Inv(s) && 1 <= s.page && s.page + 1 !in s.mem && |t.name| < 30
    requires k < |TurnProgram(s.page, s.pos, n, t)| && LegalAll(s, TurnProgram(s.page, s.pos, n, t)[..k])
    ensures InWindow(ApplyAll(s, TurnProgram(s.page, s.pos, n, t)[..k])) <==> 1 <= k
  {
    hide Stamped, LogFrom, LoadProgram, FinishProgram, OffCursor, Legal;
    var turn := TurnProgram(s.page, s.pos, n, t);
    if 1 <= k {
      assert turn[0] == Create(s.page + 1);
      assert turn[..k] == [turn[0]] + turn[1..k];
      RunConcat(s, [turn[0]], turn[1..k]);
      CreateRun(s);
      OneRun(s, turn[0]);
      var s1 := Apply(s, turn[0]);
      TurnOffCursor(s1, t, n, k);
      OffCursorCursor(s1, turn[1..k]);
    } else {
      assert turn[..k] == [];
    }
  }

  /** What happens after a writer was reopened inside the window: it works on later pages only, and a reader
      looks from time to time. */
  datatype Later = Stored(ev: Event) | Looked

  ghost predicate BeyondWindow(s: Sys, steps: seq<Later>) {
    forall i :: 0 <= i < |steps| && steps[i].Stored? ==> steps[i].ev.page > s.page
  }

  ghost function AfterLater(mem: Mem, r: Reader, steps: seq<Later>): Reader
    decreases |steps|
  {
    if steps == [] then r
    else match steps[0]
      case Stored(ev) => AfterLater(ApplyMem(mem, ev), r, steps[1..])
      case Looked => AfterLater(mem, ReaderStep(mem, r), steps[1..])
  }

  /** The current page is never closed then, so in no such run does a reader that is on it or before it, as all
      readers are that began at page 1 and do not seek, get past the old log. */
  lemma {:induction false} WindowStrandsReader(s: Sys, mem: Mem, r: Reader, steps: seq<Later>)
    requires Inv(s) && InWindow(s) && Consistent(s.mem, s.page, r) && NotAhead(s, r)
    requires BeyondWindow(s, steps) && forall k :: 1 <= k <= s.page ==> k in mem && mem[k] == s.mem[k]
    ensures var r' := AfterLater(mem, r, steps); Consistent(s.mem, s.page, r') && NotAhead(s, r') && r'.Past() <= Log(s)
    decreases |steps|
  {
    hide Stamped, LogFrom, Frames, ReaderStep, Consistent;
    if steps == [] {
      ConsistentPrefix(s.mem, s.page, r);
    } else {
      match steps[0]
      case Stored(ev) => WindowStrandsReader(s, ApplyMem(mem, ev), r, steps[1..]);
      case Looked =>
        LookBehind(s, mem, r);
        WindowStrandsReader(s, mem, ReaderStep(mem, r), steps[1..]);
    }
  }

  /** The reader is not on the page after the current one. */
  ghost predicate NotAhead(s: Sys, r: Reader) {
    r.place.Polling? ==> r.place.page <= s.page
  }

  lemma LookBehind(s: Sys, mem: Mem, r: Reader)
    requires Inv(s) && InWindow(s) && Consistent(s.mem, s.page, r) && NotAhead(s, r)
    requires forall k :: 1 <= k <= s.page ==> k in mem && mem[k] == s.mem[k]
    ensures Consistent(s.mem, s.page, ReaderStep(mem, r)) && NotAhead(s, ReaderStep(mem, r))
  {
    hide Stamped, LogFrom, Frames;
    if r.place.Polling? && s.mem[r.place.page][r.place.pos] == PAGE_END {
      NextPageReady(s, r.place.page);
    }
    assert ReaderStep(mem, r) == ReaderStep(s.mem, r);
    ReaderStepConsistent(s, r);
  }

  /** In a run, a reader that never seeks is not ahead. */
  lemma {:induction false} NeverAhead(w: World, steps: seq<Step>, w': World, i: nat)
    requires WorldInv(w) && Run(w, steps, w') && i < |w.readers| && NotAhead(w.sys, w.readers[i])
    requires forall k :: 0 <= k < |steps| ==> !(steps[k].Reposition? && steps[k].i == i)
    ensures i < |w'.readers| && NotAhead(w'.sys, w'.readers[i])
    decreases |steps|
  {
    hide WorldInv, Enabled, Next, NotAhead;
    if steps != [] {
      StepKeeps(w, steps[0]);
      StepNotAhead(w, steps[0], i);
      NeverAhead(Next(w, steps[0]), steps[1..], w', i);
    }
  }

  lemma StepNotAhead(w: World, step: Step, i: nat)
    requires WorldInv(w) && Enabled(w, step) && i < |w.readers| && NotAhead(w.sys, w.readers[i])
    requires !(step.Reposition? && step.i == i)
    ensures |Next(w, step).readers| == |w.readers| && NotAhead(Next(w, step).sys, Next(w, step).readers[i])
  {
    hide Stamped, Says, LogFrom, Promise, Faithful;
    InvShape(w.sys);
    if step.Look? && step.i == i {
      var r := w.readers[i];
      if r.place.Polling? && w.sys.mem[r.place.page][r.place.pos] == PAGE_END {
        NextPageReady(w.sys, r.place.page);
      }
    }
  }
}
