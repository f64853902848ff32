# A verified model of the journal, its page service, and the JSON library

The project models, in Dafny, two bodies of code of this repository.

**The memory-mapped journal and the page engine.** One writer appends frames to 128 MB pages while readers
follow the same bytes without a lock. The model goes down to single byte stores: a program is the list of
stores a call makes, in program order, and a run interleaves the stores of one writer, which may be stopped
and started again at any point, with any number of readers. The simple thing refined is one append-only log.
The page engine is a state machine over socket calls, rounds of its scan loop, single stores of clients into
their request slots, and changes on disk.

**The JSON library kept in the tree** (`json.hpp`): equality, JSON Pointer, patch and diff, flatten and
unflatten, CBOR and MessagePack, and the compact text with its parser.

Where the source changes state step by step the model is imperative (classes for page files, frames, pages,
journals, the page engine and the parser; loops for the rest), and each method is proved against a function or
a program of stores about which the laws are then proved.

| files | content |
|---|---|
| `Bytes`, `JournalLayout`, `JournalProtocol` | integers in bytes, page and frame layout, one store at a time, the invariant |
| `JournalInvariant`, `JournalReader` | every legal store keeps the invariant and keeps readers on track |
| `JournalProgram`, `JournalWriterProof`, `JournalTurnProof` | the store order of an append, of a page turn, of opening |
| `JournalSeek`, `JournalWorld`, `JournalProgress` | where a seek puts a reader; whole runs, stops and restarts; a reader catches up |
| `JournalFiles`, `JournalObjects`, `JournalClient` | the classes whose methods execute those programs |
| `PageNames`, `Decimal` | page file names and decimal text |
| `EngineState`, `EngineInvariant`, `EngineRuns`, `EngineService`, `EngineExit`, `EngineDepartures`, `EngineObject` | the page engine |
| `KeyOrder`, `KeyTotals`, `Parts`, `JsonValue`, `JsonDoubles`, `CanonicalKeys` | key order, sequences inside sequences, JSON values and their equality |
| `JsonText`, `JsonPointer`, `JsonAccess`, `JsonPatch`, `JsonPatchLaws`, `JsonDiff`, `JsonDiffLaws` | pointers, patch and diff |
| `JsonFlatten`, `JsonFlattenOrder`, `JsonFlattenProof`, `JsonFlattenTheorem` | flatten and unflatten |
| `BinaryEncode`, `BinaryDecode`, `BinaryReader`, `BinaryRoundTrip`, `BinaryIndefinite` | CBOR and MessagePack |
| `BinaryItems`, `BinaryItemsProof`, `BinaryCut`, `BinaryShortest`, `BinaryCompact` | their grammar: what is decoded, what is refused, how short an encoding is |
| `JsonEscape`, `JsonUnicode`, `JsonNumber`, `JsonLexer`, `JsonParser`, `JsonDump`, `JsonDumpProof` | dump and parse |
| `JsonGrammar`, `JsonGrammarScan`, `JsonGrammarProof`, `JsonCompact`, `JsonShortest` | the grammar of JSON text: what is parsed, and how short dump is |

## Assumptions

- Stores become visible in program order, a fresh page file reads as zeros, and the clock never runs back.
- One writer per journal; a journal's pages are numbered from 1. A seek of a reader is one step.
- Socket calls and the service of a request are atomic, as under the engine's mutex; client stores are not.
- A client of the engine waits while its slot is REQUESTING and does not leave with a request under way; names
  of journals hold no slash; a writer asks for pages from 1 on; no file carries a page number below 1.

## Where the code and its intent differ

The engine is modelled twice, by a parameter of type `Build`. `AsCoded` follows the program text. `Repaired`
differs in these places only, each shown to matter by a lemma of `EngineDepartures`:

- `release_page` looks for a reader in the writer counts (`PageEngine.cpp:222`) and builds the path with folder
  and name exchanged (line 248).
- the test for a full table compares with `>` where the search ends at equality (line 146).
- `last_page_num` is recorded for a refused page too (line 397), and a request for the page already held is
  taken for a new one (line 389). Repaired: it is kept only for an allocated page, and a held page is given again.

The invariant is proved for both builds; for `AsCoded` under the promises of `Legal` (writers only, nothing
asked after a refusal, no request for the held page, table not full), without the clause about mapped paths.
The promise about refusals is sufficient, not necessary: when it is broken, the single request that follows keeps
the counts right exactly under the condition of `RefusedReleasesOther`, and `TwoWritersReached` is a run from the
initial state in which it is broken and two writers end up on one page.

Seeks of readers do not always find a page. Right after the next page file appears its start time reads as 0, so a
seek to any later time picks that page, loading it is refused because its header is raw, and the reader expires.
`SeekExpires` and `SeekFails` say exactly when, `SeekDuringTurn` that every page turn passes through such a state;
in all other states `SeekAgreesWithScan` holds.

A writer stopped between creating the next page file and closing the current one is not found again at its cursor
when the journal is reopened (`ReopenFindsCursor`, `WindowStops`; `SeekEnd` says where it is then), and readers that
began at page 1 and do not seek never reach what it writes after that (`WindowStrandsReader`). A reader that seeks to
the end or to a late time does land on those pages.

Laws of the JSON library that do not hold of all values, with their exact conditions:

- `source.patch(diff(source, target)) == target` (stated at `json.hpp:12738`) fails exactly when the target
  holds a NaN, for arrays whose indices fit an int; `TooLongFails` shows a failure beyond.
- flatten and unflatten restore a value exactly when it is `Restorable`: besides empty containers, an object
  whose leaves are met first at a key "0" is rebuilt as an array. `j == j.flatten().unflatten()` with the library's
  operator== (stated at `json.hpp:12413`) also fails for a NaN.
- decoding CBOR or MessagePack turns an infinity or a NaN into null (`json.hpp:275`), although a value can hold one
  (through `get_ref`) and it is encoded bit for bit. So what comes back is equal exactly when every double is finite
  (`RoundTrip`).
- the compact text is parsed back exactly when every string and key is valid UTF-8; the scanner refuses others.
- the parser takes the documents of RFC 7159 and no other text, except that a null character ends the text and whatever
  stands after it is ignored (`ParsesTheGrammar`).
- the encoder is shortest among items with lengths given ahead; for CBOR an array closed by a break can be shorter
  (`OpenListShorter`).
- operator== compares an unsigned with a signed number after a cast, so 18446744073709551615 equals -1
  (`EqWrapsAround`).
- an `add` makes a missing parent when the path is three tokens or longer (`AddMakesParent`), where section 4.1 of RFC
  6902 asks for an error; a `remove` below a value that is no container does nothing (`RemoveFindsNothing`).
- `copy` onto an existing array element overwrites it, where section 4.5 of RFC 6902 inserts (`CopyOverwrites`).

## Model

| member | source | states |
|---|---|---|
| Bytes.LeSigned | memoryManage/journal/Frame.hpp:175-208 | a header field stored little-endian in its own width reads back as the signed number stored, for every number that fits |
| JournalInvariant.InitialInv | memoryManage/journal/journal.h:33 | a journal directory without page files satisfies the invariant |
| JournalInvariant.StoreKeepsInv | memoryManage/journal/Frame.hpp:229-242 | every store the protocol allows keeps the pages well formed (contiguous written frames from the header to the cursor, closed pages ended and counted, time stamps sorted within and across pages, a page readers can load early starts after all that was written, versions those of this program); the log grows by exactly the published frame, or stays |
| JournalInvariant.CommitKeeps | memoryManage/journal/Frame.hpp:236-240 | storing WRITTEN at the cursor appends precisely the bytes of that frame to the log |
| JournalInvariant.TurnKeeps | memoryManage/journal/journal.cpp:66-73 | storing PAGE_END moves the cursor to the next page and leaves the log as it is |
| JournalReader.ReaderStepConsistent | memoryManage/journal/journal.h:76-83 | a step of a reader keeps it on track: frames passed over, frames delivered and frames still ahead of it are the whole log |
| JournalReader.StoreConsistent | memoryManage/journal/Frame.hpp:236-240 | a store of the writer never makes a reader position, or the bytes of a half read frame, stale |
| JournalReader.WaitingConsistent | memoryManage/journal/journal.cpp:66-73 | a reader that a seek put on the next page too early stays there, misses nothing, and is at the writer's cursor once the page turns |
| JournalReader.NextPageReady | memoryManage/journal/journal.cpp:66-73 | where a page reads PAGE_END the next page exists, is initialised, and a reader loads it at its first frame |
| JournalWriterProof.FrameRun | memoryManage/journal/JournalWriter.cpp:39-49 | the stores of one append, in program order, are legal one by one and add one frame that says every field of the request, byte by byte for the error text |
| JournalWriterProof.MessageReads | memoryManage/journal/Frame.hpp:220-223 | a message shorter than its field and without a zero byte reads back, up to the first zero byte of the frame, as the very text asked for |
| JournalWriterProof.ImagedSays | memoryManage/journal/Frame.hpp:210-234 | the bytes of a stored frame decode to the source, type, flag, ids, payload, times and length that were asked for, and each byte of the message field is that of the error text or zero past its end |
| JournalWriterProof.PublishRun | memoryManage/journal/Frame.hpp:236-240 | marking the next entry RAW and then this one WRITTEN adds one frame to the log, and it says the request |
| JournalWriterProof.MarkRun | memoryManage/journal/Frame.hpp:238 | marking the next entry RAW publishes nothing; the frame at the cursor is then complete and says the request |
| JournalTurnProof.LoadRun | memoryManage/journal/Page.cpp:34-48 | initialising a raw page header store by store keeps the invariant, leaves the log, and leaves the page readable with the name, page number and start time asked for and the close time -1 |
| JournalTurnProof.FinishRun | memoryManage/journal/Page.cpp:14-21 | closing a page records the close time, the true frame count and end position and moves the cursor to the next page |
| JournalTurnProof.TurnRun | memoryManage/journal/journal.cpp:66-77 | obtaining, initialising and only then closing is legal store by store; log unchanged, cursor at the start of the next page |
| JournalTurnProof.OpenRun | memoryManage/journal/JournalWriter.cpp:12-23 | opening an empty journal makes page 1 and an empty log |
| JournalTurnProof.AppendRun | memoryManage/journal/JournalWriter.cpp:35-52 | an append, with or without a page turn before it, adds one frame that says the request and leaves no page half made |
| JournalWorld.ReadersDeliverPrefix | memoryManage/journal/journal.h:56-90 | in every interleaving of single stores, stops, restarts, and looks, seeks and expiries of readers, what a reader passed over in its last seek and what it delivered since are together a prefix of the log, and the log is the committed appends in order: nothing torn, skipped or repeated |
| JournalWorld.NeverSought | memoryManage/journal/journal.h:56-90 | a reader that began at page 1 and does not seek has passed over nothing: what it delivered is itself a prefix of the log |
| JournalWorld.ReaderNeverRestarts | memoryManage/journal/journal.h:76-83 | in no run does a reader that has a page lose it and fall back to page 1 |
| JournalWorld.NeverBlocked | memoryManage/journal/JournalWriter.cpp:39-50 | in every run the next store of a program under way is allowed by the protocol |
| JournalWorld.StepGrows | memoryManage/journal/JournalWriter.cpp:49-50 | no step takes back a frame of the log, and none but a reader's own seek what it has behind it |
| JournalWorld.StoppedAppend | memoryManage/journal/JournalWriter.cpp:35-52 | stopped after any store of an append, the log is the old one or the old one with the whole frame; outside the window the cursor and page are found again |
| JournalWorld.LastCommits | memoryManage/journal/JournalWriter.cpp:49 | only the last store of an append changes the log |
| JournalWorld.ReopenFindsCursor | memoryManage/journal/JournalWriter.cpp:19-23 | reopening at the newest page file finds the stopped writer's cursor if and only if it did not stop in the window, and then nothing else |
| JournalWorld.WindowStops | memoryManage/journal/journal.cpp:67-72 | exactly the stops after the next page file appears and before PAGE_END is stored lie in that window |
| JournalWorld.WindowStrandsReader | memoryManage/journal/journal.cpp:67-72 | in every run of stores on later pages by a writer reopened inside the window, readers on the current page or before it never get past the old log |
| JournalWorld.NeverAhead | memoryManage/journal/journal.h:76-83 | readers that began at page 1 and do not seek are such readers, in every run |
| JournalProgress.LookProgress | memoryManage/journal/journal.h:74-84 | every look brings a reader strictly nearer to the end of the log, until it has all of it and stays |
| JournalProgress.ReaderCatchesUp | memoryManage/journal/journal.h:56-90 | in every state of every run, a reader that is not expired and looks more often than its distance while the writer rests has the whole log behind it |
| JournalSeek.ChosenPage | memoryManage/journal/PageUtil.cpp:62-75 | the page picked for a time starts before it (or is page 1), and every later page does not |
| JournalSeek.SeekAgreesWithScan | memoryManage/journal/journal.cpp:42-51 | whenever a seek to a time finds a page, it splits the whole log as a linear scan would: all frames before the cursor are stamped earlier, all from it on are not, wherever the next frame lies, also when the page found is one the writer has not moved to yet |
| JournalSeek.SeekFails | memoryManage/journal/PageUtil.cpp:62-75 | it finds none exactly when the journal has no initialised page, or the next page file is there, raw, with a start time that reads as earlier |
| JournalSeek.SeekDuringTurn | memoryManage/journal/journal.cpp:42-52 | which happens in every turn of the page, right after the file appears, for every positive time: the page found cannot be loaded and the reader expires |
| JournalSeek.SeekExpires | memoryManage/journal/journal.cpp:26-52 | for each of the three kinds of seek, exactly when it leaves the reader expired |
| JournalSeek.SoughtConsistent | memoryManage/journal/journal.cpp:19-53 | each kind of seek leaves the reader at a frame of the log with precisely the frames before that one passed over |
| JournalLayout.VersionRefused | memoryManage/journal/Page.cpp:50-56 | a page is refused exactly when another version of the program has stored its number there |
| JournalSeek.SoughtPast | memoryManage/journal/journal.cpp:26-52 | what a seek that finds a page passes over: nothing when it is to the beginning, the whole log when to the end, exactly the frames stamped before it when to a time |
| JournalSeek.KeptReadable | memoryManage/journal/Page.cpp:35-56 | in a journal kept by its writer every page a reader can load is well formed and of this program's version, so loading never throws |
| JournalFiles.ProgramMem | memoryManage/journal/PageUtil.cpp:103-145 | executing a program on mapped files leaves the bytes the protocol state says |
| JournalFiles.PageFiles.CreatePage | memoryManage/journal/PageUtil.cpp:103-145 | a created page file reads as zeros and is recorded as one event |
| JournalFiles.PageFiles.PutBytes | memoryManage/journal/Frame.hpp:218-225 | a copy into a page is a sequence of single byte stores, lowest address first |
| JournalObjects.Frame.SetData | memoryManage/journal/Frame.hpp:229-234 | error id, payload and length are stored in this order and nothing else is |
| JournalObjects.Frame.SetErrorData | memoryManage/journal/Frame.hpp:210-227 | with an error id the message, cut or filled with zeros to its field, and the longer header are stored, without one SetData is meant; stores in program order (which bytes the frame then holds is ImagedSays) |
| JournalObjects.Frame.SetStatusWritten | memoryManage/journal/Frame.hpp:236-240 | the next entry is marked RAW before this one WRITTEN |
| JournalObjects.Page.PassFrame | memoryManage/journal/Page.h:62-66 | the cursor moves by the length of the frame it leaves |
| JournalObjects.Page.PassWrittenFrame | memoryManage/journal/Page.h:68-74 | the loop stops at the end of the written frames and has counted them |
| JournalObjects.Page.PassToTime | memoryManage/journal/Page.h:76-82 | the loop stops at the first frame not stamped before the time and has counted the others |
| JournalObjects.Page.LocateWritableFrame | memoryManage/journal/Page.h:84-88 | an address is given exactly when the slot after the frames is RAW and leaves the headroom |
| JournalObjects.Page.LocateReadableFrame | memoryManage/journal/Page.h:90-93 | an address is given exactly when the frame at the cursor is WRITTEN |
| JournalObjects.Page.FinishPage | memoryManage/journal/Page.cpp:14-21 | close time, frame count and position are stored before the end status |
| JournalClient.LoadForWriting | memoryManage/journal/Page.cpp:23-60 | a writer gets the page at its front, and a raw header is initialised by the program the protocol allows; it throws exactly at an initialised page of another version |
| JournalClient.LoadForReading | memoryManage/journal/Page.cpp:23-60 | a reader gets a page exactly when the file exists, its header is not raw and its version is none or this one; it throws exactly at another version |
| JournalClient.GetPageNums | memoryManage/journal/PageUtil.cpp:41-60 | the sorted listing of the page numbers that exist, each once |
| JournalClient.GetPageNumWithTime | memoryManage/journal/PageUtil.cpp:62-75 | the backward loop over page headers finds the page the seek law is about |
| JournalClient.AcquireThenFinish | memoryManage/journal/journal.cpp:66-73 | the next page is obtained and initialised before the current one is closed |
| JournalClient.Journal.LoadNextPageForWriting | memoryManage/journal/journal.cpp:55-78 | the writer stands at the front of the next page and the log is what it was |
| JournalClient.Journal.LocateForWriting | memoryManage/journal/journal.h:63-73 | the address returned leaves the headroom; the page is turned exactly when the current one does not; on an empty page nothing is stored |
| JournalClient.Journal.LoadNextPageForReading | memoryManage/journal/journal.cpp:55-78 | a reader goes to page 1 when it has none, else to the successor, and has no page if that one cannot be loaded |
| JournalClient.Journal.LocateForReading | memoryManage/journal/journal.h:74-84 | a frame is returned exactly when, after a possible page switch, the one at the cursor is WRITTEN; an expired reader gets none |
| JournalClient.Journal.SeekTimeForReading | memoryManage/journal/journal.cpp:19-53 | a seek to -1 ends on the largest page number after its last written frame, a seek to 0 on the smallest at its first frame, any other on the newest page started before the time at the first frame not stamped before it; the reader is expired exactly when that page cannot be loaded |
| JournalClient.Journal.Expire | memoryManage/journal/journal.cpp:80-93 | an expired journal has no page |
| JournalClient.JournalWriter.StoreFrame | memoryManage/journal/JournalWriter.cpp:40-50 | the setters store one frame program, and the frame is in the log |
| JournalClient.JournalWriter.WriteFrameFull | memoryManage/journal/JournalWriter.cpp:35-52 | the method executes exactly the append program the run theorems are about and returns the stamp of the frame |
| JournalClient.JournalWriter.SeekLastForWriting | memoryManage/journal/journal.cpp:26-34 | reopening finds page, position and frame count of the log; inside the window it finds the front of the next page instead, and leaves the log as it is |
| JournalClient.JournalWriter.SeekEnd | memoryManage/journal/JournalWriter.cpp:19-23 | after reopening, the writer stands at a writable place at the end of the same log; inside the window, at the front of the next page |
| PageNames.NameRoundTrip | memoryManage/journal/PageUtil.cpp:18-39 | the page number printed into a file name is read back, for every short; any other number comes back as the short with its low 16 bits |
| PageNames.PathInjective | memoryManage/journal/PageUtil.cpp:23-28 | two pages share a path only if directory, name and number agree, when names hold no slash |
| PageNames.SlashShares | memoryManage/journal/PageUtil.cpp:23-28 | with a slash in a name two different journals can share a path |
| Decimal.DigitsRoundTrip | memoryManage/journal/PageUtil.cpp:18-39 | reading the decimal text of a number gives the number |
| EngineState.KeyOrderTotal | memoryManage/paged/PageCommStruct.h:56-66 | the order on slots is total on folder, name and page number, so a map ordered by it has one entry for each page |
| EngineInvariant.ReleaseCounts | memoryManage/paged/PageEngine.cpp:205-242 | giving up a page lowers exactly its own count, on the right side |
| EngineInvariant.ReleaseAddrs | memoryManage/paged/PageEngine.cpp:243-258 | a page is unmapped exactly when its last user leaves |
| EngineInvariant.InitiateCounts | memoryManage/paged/PageEngine.cpp:308-333 | an allocation raises exactly the count of the page and side asked for; a refusal raises none |
| EngineInvariant.InitiateAddrs | memoryManage/paged/PageEngine.cpp:265-307 | after a request, the mapped pages are again exactly the used ones |
| EngineRuns.ServeKeeps | memoryManage/paged/PageEngine.cpp:379-401 | serving a request keeps the whole invariant |
| EngineRuns.ExitKeeps | memoryManage/paged/PageEngine.cpp:336-377 | the leaving of a client keeps the whole invariant |
| EngineExit.ExitLeaves | memoryManage/paged/PageEngine.cpp:359-376 | a client that leaves is out of the registry and its slots are RAW; every other slot and client is what it was |
| EngineExit.ExitUnlists | memoryManage/paged/PageEngine.cpp:336-357 | its process lists the other clients in their order, or is gone with the last one; other processes list whom they did, and nobody lists the client |
| EngineExit.ExitUncounts | memoryManage/paged/PageEngine.cpp:359-376 | afterwards a page is counted, on either side, exactly when a slot that stays uses it, and (repaired) mapped exactly then |
| EngineExit.RegisterGives | memoryManage/paged/PageEngine.cpp:173-203 | registering succeeds exactly when the name is new; the client then has its process, its side and no slot, and is listed last for its process; a refusal changes nothing |
| EngineExit.NewJournalRefused | memoryManage/paged/PageEngine.cpp:137-171 | a journal for a client that is not registered is refused with -1, but a free slot is taken all the same |
| EngineRuns.NewJournalKeeps | memoryManage/paged/PageEngine.cpp:137-171 | a registration keeps slots disjoint, taken and within the scanned part |
| EngineRuns.NewJournalGives | memoryManage/paged/PageEngine.cpp:137-171 | the slot given was free, is nobody else's, becomes the last of the client, no other slot or client changes, and maxIdx grows to it |
| EngineRuns.RegisterKeeps | memoryManage/paged/PageEngine.cpp:173-203 | registering a client keeps the process lists exact |
| EngineRuns.StepKeeps | memoryManage/paged/PageSocketHandler.cpp:71-113 | every socket call, scan round, single client store and change on disk keeps the invariant, in the repaired program and, for disciplined writers, in the program as written |
| EngineRuns.ScanNeverBlocked | memoryManage/paged/PageEngine.cpp:379-386 | in a reachable state the scan loop can always take its next round |
| EngineRuns.OneWriter | memoryManage/paged/PageEngine.cpp:308-320 | in every reachable state at most one slot uses a page for writing |
| EngineRuns.CountsConserved | memoryManage/paged/PageEngine.cpp:205-334 | in every reachable state writer and reader counts are the numbers of slots using the page, and (repaired) a page is mapped if and only if some slot uses it |
| EngineRuns.NeverUndefined | memoryManage/paged/PageEngine.cpp:205-259 | in no run does a release erase through the wrong map |
| EngineRuns.SlotsOwned | memoryManage/paged/PageEngine.cpp:137-171 | in every reachable state journals own disjoint slots, none RAW, all at most maxIdx |
| EngineRuns.PidsListed | memoryManage/paged/PageEngine.cpp:173-203 | in every reachable state the list of a process holds exactly its clients, each once, and is never empty |
| EngineRuns.SlotPrivate | memoryManage/paged/PageEngine.cpp:359-367 | a taken slot changes only by its owner's stores, its owner's exit, or its own turn in the scan |
| EngineRuns.FillInRun | memoryManage/journal/PageProvider.cpp:72-104 | the stores that fill in a slot are legal in order and leave the slot HOLDING with what was written |
| EngineRuns.AskRun | memoryManage/journal/PageProvider.cpp:107-113 | page number before status: the request stands with the page asked for |
| EngineService.StepWaits | memoryManage/paged/PageEngine.cpp:382 | each step that is not its turn leaves a request untouched, and lowers the round-robin distance or lets the table grow |
| EngineService.RoundAnswers | memoryManage/paged/PageEngine.cpp:382-400 | a round whose turn it is of a requesting slot gives that slot, and no other, the status and last page that are due by who uses the page and whether its file exists; a page given out is mapped |
| EngineService.RoundPasses | memoryManage/paged/PageEngine.cpp:382-400 | any other round only moves on |
| EngineService.ServedInTime | memoryManage/paged/PageEngine.cpp:379-401 | a request is answered within MAX_USERS rounds whatever others do: at its turn the slot still holds what its client wrote, and after that round it has the answer that was due, a page or a refusal |
| EngineService.Answer | memoryManage/paged/PageEngine.cpp:387-398 | a writer is given the page if and only if no other slot writes it; a reader if and only if it holds it, somebody uses it or its file exists; a slot uses the page it asked for if and only if it was given |
| EngineDepartures.ReaderNotCountedDown | memoryManage/paged/PageEngine.cpp:220-228 | as written a leaving reader is never counted right: without a writer it stays counted, with one the effect is undefined; with the reader counts conservation holds |
| EngineDepartures.RefusedReleasesOther | memoryManage/paged/PageEngine.cpp:389-397 | as written, the next request of a refused writer keeps the counts right if and only if it is for the same page again or nobody writes the refused page |
| EngineDepartures.TwoWritersReached | memoryManage/paged/PageEngine.cpp:389-397 | a run of two processes, from the initial state, that ends with both writing the same page |
| EngineDepartures.HeldPageRefused | memoryManage/paged/PageEngine.cpp:389-397 | as written a writer asking again for its own page is refused; as meant it is given |
| EngineDepartures.FullTableShared | memoryManage/paged/PageEngine.cpp:139-150 | a registration gets a free slot if and only if one of the first MAX_USERS is free; otherwise, as written, everybody gets the same index |
| EngineDepartures.PageStaysMapped | memoryManage/paged/PageEngine.cpp:246-257 | as written the last user leaves and the page stays mapped, if and only if the exchanged path is another one: for names without slash, unless the folder is the name, once or several times over; always for a folder that starts at the root |
| EngineDepartures.Exchanged | memoryManage/journal/PageUtil.cpp:18-39 | exchanging folder and name gives the same text exactly for such folders |
| EngineDepartures.TempPageNeverMapped | memoryManage/paged/PageEngine.cpp:280-301 | in no run of either build, whatever the clients do, is anything mapped called TEMP_PAGE, so the rename branch is never taken |
| EngineObject.PageEngine.constructor | memoryManage/paged/PageEngine.cpp:56-66 | the object starts in the initial state of the run theorems |
| EngineObject.PageEngine.RegisterJournal | memoryManage/paged/PageEngine.cpp:137-171 | the search loop and the updates take the object to the state the invariant lemmas speak of |
| EngineObject.PageEngine.RegisterClient | memoryManage/paged/PageEngine.cpp:173-203 | the same for registering a client |
| EngineObject.PageEngine.Release | memoryManage/paged/PageEngine.cpp:205-259 | the same for giving up a page |
| EngineObject.PageEngine.Initiate | memoryManage/paged/PageEngine.cpp:261-334 | the same for taking a page, with the status returned |
| EngineObject.PageEngine.ScanOnce | memoryManage/paged/PageEngine.cpp:382-401 | the same for one round of the scan loop |
| EngineObject.PageEngine.Exit | memoryManage/paged/PageEngine.cpp:336-377 | the same for a leaving client, slot by slot |
| JsonValue.EqReflexive | memoryManage/utils/json.hpp:5882-5955 | a value without NaN equals itself |
| JsonValue.EqNeedsNoNaN | memoryManage/utils/json.hpp:5882-5955 | nothing equals a value that holds a NaN |
| JsonValue.EqSymmetric | memoryManage/utils/json.hpp:5882-5955 | equality does not depend on the order of its operands |
| JsonValue.EqIsSame | memoryManage/utils/json.hpp:5882-5955 | values without doubles are equal exactly when they are the same up to the type of their numbers, an unsigned number counting as the signed one with its bits |
| JsonValue.EqWrapsAround | memoryManage/utils/json.hpp:5941-5949 | so the largest unsigned number equals minus one |
| JsonDoubles.FloatEqMeans | memoryManage/utils/json.hpp:5905-5945 | two finite doubles are equal exactly when sign, exponent and fraction make them the same number, both zeros being one |
| JsonDoubles.SpecialDoubles | memoryManage/utils/json.hpp:275 | which bytes are an infinity or no number, by exponent and fraction |
| JsonDoubles.NumbersEqual | memoryManage/utils/json.hpp:5917-5949 | numbers of any two kinds are equal exactly when they are the same number, where the conversion between them loses nothing |
| JsonValue.CanonicalEquals | memoryManage/utils/json.hpp:5882-5955 | turning nonnegative signed numbers into unsigned ones gives an equal value, and turning doubles that are not finite into null gives an unequal one |
| KeyOrder.LessDecides | memoryManage/utils/json.hpp:1209-1230 | of two keys the first character in which they differ decides, and a proper prefix comes first |
| KeyOrder.SortedKeys | memoryManage/utils/json.hpp:1209-1230 | the walk over an object meets every key once, in strictly increasing byte order |
| JsonText.ReplaceSubstring | memoryManage/utils/json.hpp:12102-12114 | the in-place loop replaces all non-overlapping occurrences from the left |
| JsonText.EscapeRoundTrip | memoryManage/utils/json.hpp:12117-12132 | unescape undoes escape, and an escaped token has no bare slash or tilde |
| JsonText.UnescapeRoundTrip | memoryManage/utils/json.hpp:12117-12132 | escape undoes unescape on every well escaped token |
| JsonText.StoiDigits | memoryManage/utils/json.hpp:11918 | an index that fits an int is read back from its text |
| JsonText.StoiTooLarge | memoryManage/utils/json.hpp:11918 | an index beyond int is out of range |
| JsonText.StoiReads | memoryManage/utils/json.hpp:11918 | blanks and a sign before the digits are passed over, what follows them is ignored, and a number beyond int is out of range |
| JsonPointer.CheckEscapes | memoryManage/utils/json.hpp:12065-12079 | the loop over tildes accepts exactly the tokens in which 0 or 1 follows each |
| JsonPointer.SplitText | memoryManage/utils/json.hpp:12029-12087 | the loop over slashes yields the unescaped pieces, or the error of the first bad one |
| JsonPointer.SplitToString | memoryManage/utils/json.hpp:11693-11701 | printing a pointer and splitting the text gives the same tokens, for every list of tokens |
| JsonPointer.ToStringSplit | memoryManage/utils/json.hpp:11680-11701 | splitting a text that is a pointer and printing the tokens gives the same text |
| JsonAccess.GetChecked | memoryManage/utils/json.hpp:11888-11930 | the loop follows the tokens to the value the store laws are about, with the error of the first step that fails |
| JsonAccess.BadIndices | memoryManage/utils/json.hpp:11898-11920 | which tokens are refused as an index of an array, and as what: "-", a leading zero, a sign, no digits |
| JsonAccess.StoreLaws | memoryManage/utils/json.hpp:11888-11930 | what is assigned through the reference is found there, a second assignment replaces the first, and assigning what is there changes nothing |
| JsonAccess.UncheckedAgrees | memoryManage/utils/json.hpp:11821-11886 | where the checked walk succeeds the unchecked one reaches the same place and creates nothing |
| JsonAccess.UpdateThenAt | memoryManage/utils/json.hpp:11821-11886 | what the unchecked walk stores is found by the checked one, whatever was created on the way, unless "-" was used |
| JsonPatch.PatchCopy | memoryManage/utils/json.hpp:12608-12731 | the loop over a working copy ends at the first error or with all operations applied |
| JsonPatch.AddMeans | memoryManage/utils/json.hpp:12511-12572 | an add below an existing place changes that place alone |
| JsonPatch.RemoveMeans | memoryManage/utils/json.hpp:12575-12602 | a remove below an existing place changes that place alone |
| JsonPatch.ReplaceMeans | memoryManage/utils/json.hpp:12664-12669 | a replace puts the value at an existing place |
| JsonPatch.AddThenRemove | memoryManage/utils/json.hpp:12511-12602 | removing what was just added, in an array or under a new key, gives the document back |
| JsonPatchLaws.AddEnters | memoryManage/utils/json.hpp:12511-12572 | an add puts the value under its key, at the end of an array, or at an index with the elements from there moved up, stated on the text of the operation |
| JsonPatchLaws.RemoveTakes | memoryManage/utils/json.hpp:12575-12602 | a remove takes out exactly the member or element named, the elements after it moving down |
| JsonPatchLaws.AtTheRoot | memoryManage/utils/json.hpp:12511-12602 | at the root an add or replace gives the value itself and a remove fails |
| JsonPatchLaws.MoveTakesThenEnters | memoryManage/utils/json.hpp:12679-12684 | a move takes its value out first, and enters it into what is left |
| JsonPatchLaws.MoveWithinArray | memoryManage/utils/json.hpp:12679-12684 | moved within an array, an element ends at the index asked for, with the others in their order |
| JsonPatchLaws.MovePastEnd | memoryManage/utils/json.hpp:12679-12684 | a move to the index one past the old last element fails, as the array is one shorter by then |
| JsonPatchLaws.MoveAcross | memoryManage/utils/json.hpp:12679-12684 | a move between two members of an object takes from the one and enters into the other |
| JsonPatchLaws.CopyAssigns | memoryManage/utils/json.hpp:12688-12696 | a copy to a child that may not exist yet assigns it: an array is filled with nulls up to it, a null becomes a container |
| JsonPatchLaws.AddBelowMissing | memoryManage/utils/json.hpp:12511-12530 | an add fails when the first of several tokens leads nowhere |
| JsonPatchLaws.AddMakesParent | memoryManage/utils/json.hpp:12511-12530 | further down a missing parent is made: it becomes an object with the value in it, where section 4.1 of RFC 6902 asks for an error |
| JsonPatchLaws.AddHasNoPlace | memoryManage/utils/json.hpp:12536-12571 | an add past the end of an array, or below a value that is no container, fails |
| JsonPatchLaws.RemoveFindsNothing | memoryManage/utils/json.hpp:12575-12602 | a remove of a member or element that is not there fails, below a value that is no container it changes nothing |
| JsonPatchLaws.CopyHasNoPlace | memoryManage/utils/json.hpp:11821-11886 | a copy below a value that is no container, or to a negative index, fails |
| JsonPatchLaws.IllFormedFails | memoryManage/utils/json.hpp:12614-12658 | an operation without the members it needs, or with an unknown name, fails as an invalid argument |
| JsonPatchLaws.MissingFails | memoryManage/utils/json.hpp:12664-12696 | replace, remove, move and copy of what is not there fail with the error of the walk |
| JsonPatchLaws.FirstFailure | memoryManage/utils/json.hpp:12608-12731 | a patch ends at its first operation that fails, with its error |
| JsonPatch.CopyOverwrites | memoryManage/utils/json.hpp:12688-12696 | copying onto an existing place overwrites it, also in arrays, where section 4.5 of RFC 6902 inserts |
| JsonPatch.TestMeans | memoryManage/utils/json.hpp:12698-12719 | a test passes exactly when an equal value is there, and changes nothing |
| JsonDiff.DiffApplies | memoryManage/utils/json.hpp:12765-12895 | the difference of a part, taken at its path, turns that part into the target and touches nothing else |
| JsonDiff.DiffThenPatch | memoryManage/utils/json.hpp:12738-12745 | patching with the computed difference always succeeds, and the result equals the target if and only if the target holds no NaN |
| JsonDiffLaws.DiffJustified | memoryManage/utils/json.hpp:12765-12895 | every operation of a difference is called for at its place: a value replaced differs, what is removed is missing from the target, what is added is missing from the source and is the target's |
| JsonDiffLaws.DiffLeavesEqual | memoryManage/utils/json.hpp:12765-12895 | no operation of a difference is at or below a place where both values are equal |
| JsonDiff.TooLongFails | memoryManage/utils/json.hpp:12821-12831 | an array grown past the range of int makes the patch fail |
| JsonFlatten.FlattenEntries | memoryManage/utils/json.hpp:12141-12190 | the flat object has exactly the leaves of the value, each under its pointer |
| JsonFlatten.UnflattenInPlace | memoryManage/utils/json.hpp:12199-12225 | the loop in key order builds what the round-trip theorem is about, or stops at the first error |
| JsonFlatten.UnflattenRefuses | memoryManage/utils/json.hpp:12199-12225 | what unflatten refuses: other than an object, an entry that is no primitive or whose key is no pointer, one below a primitive, a negative index |
| JsonFlatten.FirstRefusal | memoryManage/utils/json.hpp:12199-12225 | the first entry refused ends it with its error |
| JsonFlattenOrder.ZeroOrder | memoryManage/utils/json.hpp:12208-12222 | which of two members is met first when one of them is "0": decided by the escaped text of the keys |
| JsonFlattenProof.PlaceAgrees | memoryManage/utils/json.hpp:11746-11800 | placing a leaf keeps what is built a part of the original and puts the leaf where it belongs |
| JsonFlattenProof.PlaceKeeps | memoryManage/utils/json.hpp:11746-11800 | placing a leaf leaves every other placed leaf alone, also when arrays are filled out of order |
| JsonFlattenTheorem.FlattenRoundTrip | memoryManage/utils/json.hpp:12388-12426 | unflatten restores a flattened value if and only if it has no empty container inside and no object is met first at a key "0"; what comes back is equal by operator== if and only if, besides, it holds no NaN |
| JsonFlattenTheorem.PlainRestorable | memoryManage/utils/json.hpp:12388-12426 | values without empty containers and without a key "0" are restored |
| BinaryEncode.CborHeadShortest | memoryManage/utils/json.hpp:6920-6946 | a CBOR head uses the fewest of 0, 1, 2, 4 and 8 argument bytes (section 3.9 of RFC 7049) |
| BinaryEncode.Append | memoryManage/utils/json.hpp:6898-7150 | the recursive encoder appends exactly the encoding the decoder is proved against |
| BinaryCompact.EncodeIsItem | memoryManage/utils/json.hpp:6898-7150 | the encoding of a value is one item of the grammar, every length given ahead, the keys of every map strictly ascending |
| BinaryItemsProof.DecodesTheGrammar | memoryManage/utils/json.hpp:7448-7916 | decoding succeeds exactly where an item of the grammar of CBOR or MessagePack stands, whoever wrote it, gives what it means and stops right after it |
| BinaryCut.DecodesItsOwnBytes | memoryManage/utils/json.hpp:7448-7916 | cut before its end an item is refused as out of range, and bytes after its end do not matter |
| BinaryCut.PrefixRefused | memoryManage/utils/json.hpp:7448-7916 | no proper prefix of an encoding can be decoded |
| BinaryShortest.NumberShortest | memoryManage/utils/json.hpp:6671-6752 | no head of the format says a number in fewer bytes than the encoder writes |
| BinaryShortest.HeadShortest | memoryManage/utils/json.hpp:7013-7047 | nor a length |
| BinaryCompact.ItemShortest | memoryManage/utils/json.hpp:6898-7150 | no item with its lengths given ahead that means a float-free value is shorter than the encoding of that value |
| BinaryCompact.PackIsShortest | memoryManage/utils/json.hpp:6671-6890 | so no MessagePack bytes that decode to a float-free value are fewer than its encoding |
| BinaryCompact.OpenListShorter | memoryManage/utils/json.hpp:7727-7737 | CBOR has shorter ones: from 256 elements on an array that ends with a break takes one byte less |
| BinaryReader.ReadItem | memoryManage/utils/json.hpp:7448-7916 | the recursive decoder with its loops reads what the round-trip theorem says, and moves the index as far |
| BinaryRoundTrip.NumberReads | memoryManage/utils/json.hpp:6671-6752 | every 64-bit number of either sign is read back from its head, in both formats |
| BinaryRoundTrip.HeadReads | memoryManage/utils/json.hpp:7013-7047 | every length within the format is read back from its head |
| BinaryRoundTrip.FloatReads | memoryManage/utils/json.hpp:266-286 | a double comes back bit for bit if it is finite and as null otherwise |
| BinaryRoundTrip.RoundTripAt | memoryManage/utils/json.hpp:7448-7916 | decoding an encoding, at any offset and with any bytes after it, gives the value, with infinities and NaN turned into null, and stops exactly at its end |
| BinaryRoundTrip.RoundTrip | memoryManage/utils/json.hpp:7940-8042 | the same for CBOR and MessagePack on whole vectors: what comes back is equal by the library's own operator== if and only if every double in the value is finite |
| BinaryIndefinite.IndefiniteList | memoryManage/utils/json.hpp:7727-7737 | a CBOR array without a length reads like the array with its length (section 2.2 of RFC 7049) |
| BinaryIndefinite.IndefiniteTable | memoryManage/utils/json.hpp:7827-7838 | the same for maps |
| BinaryIndefinite.IndefiniteText | memoryManage/utils/json.hpp:7631-7642 | a CBOR string in chunks reads as the chunks joined |
| JsonEscape.EscapedLength | memoryManage/utils/json.hpp:8097-8128 | the precomputed size is exactly the size of the escaped string |
| JsonEscape.EscapeInBuffer | memoryManage/utils/json.hpp:8143-8248 | a buffer of backslashes of that size is filled exactly, with the escaped string |
| JsonEscape.GetStringLoop | memoryManage/utils/json.hpp:10975-11088 | the loop over runs and escapes reads what the laws below speak of |
| JsonEscape.EscapedReads | memoryManage/utils/json.hpp:10975-11088 | reading an escaped string gives the string |
| JsonUnicode.Utf8Inverse | memoryManage/utils/json.hpp:9645-9707 | the bytes made for a code point stand for it and are one character to the scanner |
| JsonUnicode.PointReads | memoryManage/utils/json.hpp:11046-11081 | a \\u escape or surrogate pair reads as its code point in UTF-8, for every code point |
| JsonUnicode.LoneSurrogate | memoryManage/utils/json.hpp:11051-11074 | a surrogate alone is refused |
| JsonNumber.NumToStr | memoryManage/utils/json.hpp:8271-8304 | the digit loop with truncating division prints every 64-bit number, the smallest included, within its buffer |
| JsonParser.Parser.ParseInternal | memoryManage/utils/json.hpp:11396-11589 | the parser object with its one token ahead computes what the dump theorem is about and stands at the token after the value |
| JsonParser.ParseText | memoryManage/utils/json.hpp:11379-11393 | one value and nothing after it |
| JsonDump.DumpTo | memoryManage/utils/json.hpp:8415-8545 | the recursive writer appends the compact text the parser is proved against |
| JsonDumpProof.EscapedEnd | memoryManage/utils/json.hpp:10128-10413 | the scanner reaches the closing quote of an escaped string if and only if the string is valid UTF-8 |
| JsonDumpProof.NumberScans | memoryManage/utils/json.hpp:9991-10078 | a printed number is one token of the right kind |
| JsonDumpProof.ValueReads | memoryManage/utils/json.hpp:11396-11589 | parsing the text of a value, wherever it stands, gives the value and stops right after it |
| JsonGrammarProof.ParsesTheGrammar | memoryManage/utils/json.hpp:11379-11589 | parsing succeeds exactly on the documents of the grammar of RFC 7159, up to a null character, with any blanks, escapes, digits and repeated names, and gives what the document means; all other text is an invalid argument |
| JsonCompact.DumpIsText | memoryManage/utils/json.hpp:8415-8545 | the text of a value is a document without blanks whose objects list their names in strictly ascending order |
| JsonShortest.DumpIsShortest | memoryManage/utils/json.hpp:8415-8545 | no text that parses to a float-free value is shorter than the text of that value |
| JsonDumpProof.DumpThenParse | memoryManage/utils/json.hpp:8415-8545 | parsing the compact text of a float-free value gives an equal value if its strings are valid UTF-8, and is refused otherwise |

## Left out

- mmap, mlock, rename, sockets, threads and logging: page files are a map from page number to bytes, and calls are atomic steps.
- Weak memory: stores are taken to be seen in program order, as the code relies on.
- Page numbers on pages are not wrapped at the range of short (in file names they are); a journal of 32767 pages is beyond the model.
- Frames longer than the 2 MB headroom: the code does not check them, the model requires a shorter one; names of journals are shorter than 30 bytes.
- An error frame whose message is null keeps the old bytes of its message field, which the model does not describe; the unused hash field is never stored.
- Journal::locateFrame is two methods, one for writers and one for readers; the reader's has a value also where the source falls off its end without one.
- JournalClient.Journal.Expire: the request for page -1 that tells the page service is not made.
- JournalClient.Journal.SeekTimeForReading: writers seek only to the end, by SeekLastForWriting.
- Page files are listed by taking the least number left, in place of a directory walk and std::sort.
- The readers' waiting and the getters that only return a header field. The stores a writer makes while a reader's seek scans a page are taken to come before or after the seek.
- register_strategy, sub_md, login_td and writeStr, which return constants, and the strategy branch of exit_client, as no client is ever one.
- EngineState.ReleasePage: as written, a reader giving up a page that also has a writer is undefined behaviour; the model marks the state undefined and says nothing about what follows.
- A slot taken by a registration for an unknown client stays taken for ever, in the code and in the model.
- Buffer addresses: fileAddrs is the set of mapped paths.
- Floating-point text and arithmetic: a double is its eight bytes; its text, its conversion from shorter floats and its comparison with integers are parameters.
- JsonPatch.ApplyOp: where C++ leaves the order of evaluation open (which of two failing operands is reported, and copy within overlapping paths) the model fixes one order.
- JsonAccess.FreeIndex: a negative index token is a LengthError; for "-1" and an empty array the source's size computation wraps to undefined behaviour. Filling an array up to a huge index is not limited by memory.
- A failed assert in add (a primitive parent) is an error value AssertionFailed.
- BinaryEncode.PackHead: MessagePack strings, arrays and objects of 2^32 elements or more get no head, as in the code; the round trip excludes them.
- The generated scanner table: Scan is written out by hand from its states; what a number with a fraction or exponent is worth is a parameter. Stream refill, parser callbacks and pretty printing.
- Iterators, type traits, templates, allocators, conversion operators and the discarded value of the JSON library.
