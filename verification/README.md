# macdbg: models and proofs

macdbg is a debugger for arm64 macOS programs. This project models the parts of it whose guarantees do not
depend on LLDB and proves what they promise:

- reassembly of HTTP/1.x requests from byte streams cut anywhere (`Bytes`, `HttpRequests`, `HttpStream`,
  `HttpCuts`, `HttpEdge`, `HttpPrint`, `HttpRoundTrip`, `HttpBodies`, `HttpTable`, `HttpIsolation`, `HttpFields`,
  `HttpRefusals`, `HttpCapture`);
- constant propagation over ARM64 listings, against a small-step semantics of the instructions (`Arm64`,
  `CodeFlow`, `CodeFlowSound`, `CodeFlowComplete`, `FramePointer`), and the basic-block graph of a listing (`CodeBlocks`);
- the tracked patch list, verified writes, undo, the export and import of a patch manifest and the gate that
  lets the target resume (`Patches`, `Edits`, `PatchLists`, `DebuggerMemory`, `Undo`, `Workspace`, `Manifest`,
  `ManifestExport`, `TextGate`, `TextRuns`);
- the protocol between stop notices, commands and fork or exec decisions (`ResumeProtocol`);
- the assembler for relative instructions and labels (`RelativeCode`, `Assembler`);
- the clock that hides debugger pauses (`PauseClock`), the chunked memory search (`MemorySearch`), the
  recorded instruction history (`TraceLog`), and breakpoints shared by several defenses (`HookOwnership`,
  `HookSwitches`, `CloakRollback`, `HookRuns`, `HookManagers`).

## How it is written

Code that changes things in place is a class or a method with loops. Each such method is proved equal to a
pure function of the old state, and the properties are lemmas about those functions: over every input, every
cutting, every run of operations. What a function accepts, refuses and computes is also said without it, of the
bytes, instructions, flags, records and fields it reads (`HttpFields`, `HttpRefusals`, `CodeFlowComplete`,
`HookSwitches`, and the lemmas whose names end in `Exact`).

Bytes of a stream or file are written as Latin-1 characters, so that the literals read as in the program;
bytes of the target's memory are naturals, and the results do not depend on their being below 256 except
where `Arm64` says so. Integers are unbounded, and every mask, wrap-around and truncation of the program is
written out. Operands of instructions and lines of assembly are already decoded. A debugger operation that
can fail takes what the target does as a parameter (`Landing`: which bytes of a write arrive and what is
reported; `Answers`, `Found`: what the rest of the debugger or the target answers), and the properties are
proved for every value of it.

Where the program and its promise part, the program is kept, the exact condition is proved, and a lemma names
an input (or, for the refused wrapping branch and the empty search, says it of every one):

- A chunk-size line of exactly 8192 bytes is accepted or refused depending on where the stream is cut
  (`macdbg/core/http_capture.py:439` and `:445` differ by one). `HttpEdge.CutIndependentIff` shows that nothing
  else depends on the cuts; `HttpEdge.LongLineExists` prints well-formed requests with such a line.
- The address reported for an `add` or `sub` with a 32-bit destination is not cut to 32 bits: it is right exactly
  when the sum does not carry and the difference does not borrow (`CodeFlowSound.SumTargetExact`; `CodeFlowSound.BorrowReported` is
  a `sub` for which it is wrong).
- A write under the names `fp` or `lr` does not invalidate `x29` or `x30` (`FramePointer.FramePointerAlias`);
  `FramePointer.HiddenWriteHarmless` says of each instruction exactly when that does no harm. The program's own
  patterns accept both names as bases and operands (`macdbg/core/arm64_operands.py:15`, `:46`); no listing in the
  repository's tests has one, and which spelling the disassembler prints is decided outside the repository.
- The patch list need not be current: the target may have overwritten listed bytes, and the list is saved,
  loaded and kept over a restart (`macdbg/core/state.py:191-199`, `macdbg/core/debugger.py:197`, `:397-420`).
  An edit and its undo then bring memory back but may change the list: `Undo.UndoInverts` says that it comes back
  exactly when each listed byte among those edited held its listed new value, `Undo.StaleUndo` is a session in
  which it does not.
- For the same reason the gate can refuse a code section that is the original one: after a patched byte, a restart
  and nothing else, the gate stays closed and reverting the patch is refused (`TextGate.KeptListRefused`). The gate
  opens exactly when no byte of the code section is listed and the breakpoints pass (`TextGate.GateExact`); that
  means an original code section always, and the converse holds when the listed bytes are as the list says
  (`TextGate.GateOfMemory`).
- A write that fails after some of its bytes have arrived leaves bytes no list names, and the gate does not see them
  (`TextGate.TornWriteUnseen`). `TextGate.OtherWriteExact` says exactly which untracked or failed writes are harmless.
- A run longer than 4096 bytes, as two edits side by side make it, is exported into a manifest that no import
  accepts (`ManifestExport.LongRunRefused`); `ManifestExport.ManifestAccepted` shows that only this, and more than 4096
  runs, is in the way.
- A relative instruction is refused when its displacement would wrap around the address space
  (`RelativeCode.EncodesExactly`, `RelativeCode.WrapRefused`).
- A stop seen under a new key while the pause of the one before is still open restarts the pause, and its
  beginning is not accounted (`PauseClock.RestartLoses`); `PauseClock.PauseExact` says by how much the account
  falls short and that nothing else makes it wrong.
- A fork decision resumes the target without noting it, so a user who continues before the target is reported
  as running asks twice (`ResumeProtocol.SilentDecision`); `ResumeProtocol.OneRequestPerStop` is the exact
  condition. A user who resumes before the first notice of a stop is handled can leave an undecided call behind
  while the target runs (`ResumeProtocol.EarlyUndecided`); `ResumeProtocol.EarlyExactly` shows that nothing else
  can. A stop notice without a number is acted on even while the target runs (`ResumeProtocol.UnnumberedActedOn`).
- A search for no hit at all (`max_hits` 0) still reports the first one (`MemorySearch.Search`).
- An attempt to enable the cloak that fails can leave syscall hooks behind when another defense had been
  waiting for them (`CloakRollback.FailedCloakLeavesHooks`), and `CloakRollback.FailedCloakRestores` says exactly
  when it cannot; a defense a user turns on while the cloak has it
  borrowed goes off with the cloak (`HookRuns.BorrowedGoesOff`, reached by `HookRuns.BorrowedRun`).

## Model

| member | source | states |
|---|---|---|
| HttpStream.StepShrinks | macdbg/core/http_capture.py:410-482 | every turn of the parser's loop consumes bytes or leaves a body mode, so consuming terminates |
| HttpStream.RunKeepsValid | macdbg/core/http_capture.py:410-488 | whatever is buffered, a stream that is kept ends with a request exactly outside the headers mode, a body within 256 KiB, and body seen plus remaining equal to the declared length in the fixed mode |
| HttpCuts.StepExtend | macdbg/core/http_capture.py:412-482 | one move on a buffer and on a longer buffer agree: a move, refusal or wait is not changed by later bytes, except at a chunk-size line of 8192 bytes |
| HttpCuts.RunExtend | macdbg/core/http_capture.py:410-488 | consuming what has arrived and then the rest is consuming everything at once: same records, verdict and state |
| HttpCuts.CutIndependence | macdbg/core/http_capture.py:328-488 | for every cutting of the same bytes the records, the verdict and the final stream state are those of one feed, when no chunk-size line has exactly 8192 bytes |
| HttpEdge.EdgeDepends | macdbg/core/http_capture.py:437-446 | any stream with such a line has two cuttings with different outcomes |
| HttpEdge.LongLineMet | macdbg/core/http_capture.py:437-446 | every printed chunked request whose last chunk-size line has 8192 bytes is such a stream, whatever follows it: it has cuttings with different outcomes |
| HttpEdge.LongLineExists | macdbg/core/http_capture.py:437-446 | there are well-formed requests of that kind |
| HttpEdge.CutIndependentIff | macdbg/core/http_capture.py:437-446 | the outcome of every beginning of a stream is independent of the cuts if and only if no chunk-size line of it has exactly 8192 bytes |
| HttpPrint.OpenPrinted | macdbg/core/http_capture.py:359-399 | reading a printed header block (RFC 9112, sections 3 and 6.3) gives back the request line, the fields in order, the content type and the framing |
| HttpRoundTrip.OneMessage | macdbg/core/http_capture.py:401-482 | one printed request, fixed-length or in any partition into chunks with extensions and trailers, gives one record and leaves the stream idle before whatever follows |
| HttpRoundTrip.RoundTrip | macdbg/core/http_capture.py:359-482 | printing any list of well-formed requests, concatenating and parsing gives exactly those requests in order, complete when the body is within 256 KiB, with the first 256 KiB of it |
| HttpRoundTrip.RoundTripInPieces | macdbg/core/http_capture.py:328-482 | the same through every cutting of the printed bytes, for chunk-size lines of at most 8191 bytes |
| HttpBodies.BodyIsPrefix | macdbg/core/http_capture.py:256-260 | the stored body is always the first min(body seen, 256 KiB) bytes of the decoded body, across fixed and chunked modes |
| HttpTable.FeedStreamWhole | macdbg/core/http_capture.py:343-350 | the 16 KiB slices a read is parsed in do not matter |
| HttpTable.HistoryBounds | macdbg/core/http_capture.py:263-357 | over any history of reads, closes and evictions at most max_streams streams are kept, with distinct keys, and each buffers at most 64 KiB and stores at most 256 KiB |
| HttpIsolation.Isolation | macdbg/core/http_capture.py:317-357 | with room for all keys, the records and the state of a stream are those of its own reads, whatever happens to the other streams |
| HttpIsolation.StreamAlone | macdbg/core/http_capture.py:317-357 | the records a stream gets in any history are those of parsing its bytes at once |
| HttpIsolation.RequestsRecovered | macdbg/core/http_capture.py:328-482 | printed requests sent over one stream, cut anywhere and mixed with other streams, come back exactly |
| HttpFields.FramingExact | macdbg/core/http_capture.py:384-398 | every list of fields either declares a framing, and this one is used, or is refused for the reason it gives: a length and a coding together, a coding other than a single "chunked", a length that is not 1 to 19 digits in every piece or differs from another; said of the pieces between commas and the blanks around them |
| HttpFields.TypeExact | macdbg/core/http_capture.py:370-383 | the body has the type of the only type field unless it is coded; several type fields and a coded body are warned of, and nothing else is |
| HttpRefusals.CharactersExact | macdbg/core/http_capture.py:20-21 | tokens, targets and values are of the characters RFC 9110, section 5.6.2, and RFC 9112, section 3.2, allow |
| HttpRefusals.HeaderLineExact | macdbg/core/http_capture.py:171-181 | a line is read as a field exactly when it spells it: a token, a colon, a value and blanks around it; any other is refused as a line without a colon or a malformed one |
| HttpRefusals.RequestLineExact | macdbg/core/http_capture.py:359-364 | a line is read as a request line exactly when it is the printed form of one |
| HttpRefusals.BlockExact | macdbg/core/http_capture.py:359-399 | a block of a request line and spelled fields opens with the framing they declare or breaks with the fault they ask for |
| HttpRefusals.BadLineRefused | macdbg/core/http_capture.py:368-369 | the first line that spells no field decides the fault, and only the request line is kept |
| HttpRefusals.NotHttpRefused | macdbg/core/http_capture.py:359-362 | without a request line there is no request |
| HttpRefusals.PrintedRefused | macdbg/core/http_capture.py:384-398 | printed fields, in any order and number, that declare no framing give one record, malformed and not complete, without a body, whose last warning names the fault, and the stream is given up |
| HttpRefusals.PrintedDeclared | macdbg/core/http_capture.py:384-399 | all other printed fields lead into the body with the framing they declare |
| HttpRefusals.BothFieldsRefused | macdbg/core/http_capture.py:384-385 | a POST with a length of 3 and a chunked coding is refused, whatever follows |
| HttpRefusals.ChunkLineExact | macdbg/core/http_capture.py:437-450 | a chunk-size line is taken exactly when it is at most 8192 bytes and has 1 to 16 hexadecimal digits before its first semicolon; otherwise the request is recorded as malformed or truncated |
| HttpRefusals.TerminatorExact | macdbg/core/http_capture.py:459-465 | chunk data is followed by a line end, or the request is recorded as malformed |
| HttpRefusals.TrailersRefused | macdbg/core/http_capture.py:477-480 | trailers with a length or a coding are refused |
| HttpRefusals.EndlessTrailers | macdbg/core/http_capture.py:470-476 | trailers wait for their end up to 65536 bytes, are refused beyond, and when a line spells no field |
| HttpRefusals.NoBlankLine | macdbg/core/http_capture.py:413-421 | a header block without an end waits up to 65536 bytes and is refused beyond; bytes that can begin no request are dropped without a record |
| HttpRefusals.LongBlockRefused | macdbg/core/http_capture.py:422-423 | a header block that ends beyond 65536 bytes is refused |
| HttpRefusals.Unfinished | macdbg/core/http_capture.py:283-315 | the record of a request that is not complete: the body bytes kept so far, the declared length and no other, its status and warnings |
| HttpRefusals.PartialExact | macdbg/core/http_capture.py:289-305 | a stream that goes away inside a header block names its request with the fields before the first unreadable one |
| HttpRefusals.FlushRecords | macdbg/core/http_capture.py:317-326 | closing a stream removes it and records its request as incomplete; closing any other does nothing |
| HttpRefusals.EvictRecords | macdbg/core/http_capture.py:336-340 | evicted streams are recorded as incomplete one after the other, oldest first |
| HttpRefusals.ShortReadRecords | macdbg/core/http_capture.py:348-353 | a short read ends the stream and records the request under way as truncated |
| HttpRefusals.FeedKeeps | macdbg/core/http_capture.py:328-357 | after a read the other streams are kept but the oldest surplus, and this one unless it was given up, read short, or holds neither request nor bytes |
| HttpCapture.Stream.constructor | macdbg/core/http_capture.py:245-254 | a new stream is the empty one in the headers mode |
| HttpCapture.Stream.TakeBody | macdbg/core/http_capture.py:256-260 | moves bytes from the buffer to the body, keeping what fits the capture limit and counting all |
| HttpCapture.Stream.Drain | macdbg/core/http_capture.py:426-430 | takes what the buffer has of the body or chunk still awaited |
| HttpCapture.Stream.Complete | macdbg/core/http_capture.py:401-408 | gives the finished record and resets the stream for the next request |
| HttpCapture.Stream.NewRequest | macdbg/core/http_capture.py:359-399 | opens a request, refuses a block that is no request, or raises a fault with the part of the request known so far, as `HttpRefusals.BlockExact` says of the bytes |
| HttpCapture.ConsumeMode | macdbg/core/http_capture.py:413-482 | one mode's part of the loop body makes the move of the pure parser |
| HttpCapture.Consume | macdbg/core/http_capture.py:410-488 | the loop emits the records of the pure parser and leaves its state, or gives the stream up exactly when the parser rejects it |
| HttpCapture.HTTPRequestCapture.constructor | macdbg/core/http_capture.py:270-272 | an empty table with a limit clamped to 1 to 64 |
| HttpCapture.HTTPRequestCapture.Discard | macdbg/core/http_capture.py:277-278 | removes one stream and no other |
| HttpCapture.HTTPRequestCapture.Flush | macdbg/core/http_capture.py:317-326 | closing a stream removes it and gives a record of its incomplete request |
| HttpCapture.HTTPRequestCapture.EvictOldest | macdbg/core/http_capture.py:336-340 | streams of oldest use are dropped until the limit holds, each with its record |
| HttpCapture.HTTPRequestCapture.PutBack | macdbg/core/http_capture.py:348-357 | after a read the stream goes behind all others, or is dropped when refused, cut short or idle |
| HttpCapture.HTTPRequestCapture.Feed | macdbg/core/http_capture.py:328-357 | one read changes the table and emits the records as the table of pure streams does |
| CodeFlow.ReferenceCandidates | macdbg/core/code_flow.py:8-88 | the two passes over the rows report the candidates of the row-by-row analysis, which `CodeFlowComplete.ListingReports` describes without it |
| CodeFlowSound.MemoryAccessSound | macdbg/core/arm64_operands.py:26-77 | an effective address computed from known registers, with extension, shift and wrap-around, is the one the machine accesses |
| CodeFlowSound.RegisterValueSound | macdbg/core/arm64_operands.py:14-23 | the value read for a register name, w names and zero registers included, is the machine's |
| CodeFlowSound.MovkSound | macdbg/core/code_flow.py:41-43 | clearing and setting a field as the program does inserts the 16-bit field |
| CodeFlowSound.StepSound | macdbg/core/code_flow.py:17-87 | after each instruction every register still recorded holds the recorded value, whatever the instruction writes, wraps or invalidates |
| CodeFlowSound.RunSound | macdbg/core/code_flow.py:8-88 | on every run of a listing, with loops, branches taken or not, calls that change any register and stores, every recorded value is the register's value at every point |
| CodeFlowSound.CandidatesSound | macdbg/core/code_flow.py:66-67 | each reported candidate is, modulo 2^64, the address the machine computes there on every run that passes the row |
| CodeFlowSound.CandidatesOfRows | macdbg/core/code_flow.py:16-88 | the candidates of the listing are exactly those of its rows |
| CodeFlowComplete.ReportExact | macdbg/core/code_flow.py:28-67 | whenever the operands a row needs are on record and its form is readable, it reports the address the machine computes there under the row's own kind; otherwise nothing |
| CodeFlowComplete.RecordExact | macdbg/core/code_flow.py:70-87 | behind a row exactly these registers are on record: the one it writes if the value can be computed, and every other it does not write or write back, unchanged; none behind a branch or an unknown row |
| CodeFlowComplete.RecordHolds | macdbg/core/code_flow.py:30-74 | adr, adrp, mov, movz, movn, movk, add, sub and a load of read bytes record the value the machine writes whenever it can be computed |
| CodeFlowComplete.ClaimsExact | macdbg/core/code_flow.py:10-19 | nothing else is forgotten between rows but where a decoded branch of the listing leads |
| CodeFlowComplete.ListingReports | macdbg/core/code_flow.py:8-88 | of a row that a run passes the whole listing reports exactly the address the machine computes, if and only if the operands are on record |
| CodeFlowComplete.BaseReported | macdbg/core/code_flow.py:56-67 | a load and a call through a known base, with the addresses they report |
| CodeFlowSound.SumTargetExact | macdbg/core/code_flow.py:48-67 | the address reported for an add or sub is always what a 64-bit destination gets; for a 32-bit one if and only if the shifted right operand is at most the left one (sub), or their sum stays below 2^32 (add) |
| CodeFlowSound.BorrowReported | macdbg/core/code_flow.py:48-67 | a 32-bit sub that borrows, reported as 0xffffffffffffffff where the machine writes 0xffffffff |
| FramePointer.HiddenWriteHarmless | macdbg/core/code_flow.py:70-80 | after any instruction that writes under the name fp or lr, as destination or as written-back base, everything recorded stays true on every execution if and only if x29 (x30) is not recorded, or what is written is known beforehand and equals the recorded value modulo 2^64 |
| FramePointer.ClaimsPlausible | macdbg/core/code_flow.py:73-74 | every recorded value is one of registers 0 to 30 and below 2^64, which the row above starts from |
| FramePointer.FramePointerAlias | macdbg/core/code_flow.py:70-74 | a write under the name fp is missed: x29 is still reported with its old value |
| CodeBlocks.BlocksFor | macdbg/core/code_navigation.py:24-57 | the loops build the blocks and edges of the listing |
| CodeBlocks.BlocksPartition | macdbg/core/code_navigation.py:38-41 | the blocks, in order, are the rows, in order, and each begins at a leader or the first row |
| CodeBlocks.OnlyLastBranches | macdbg/core/code_navigation.py:14-41 | only the last row of a block can branch away, call through a register or return |
| CodeBlocks.LeadersExact | macdbg/core/code_navigation.py:28-36 | blocks begin at the first row, at targets of branches in the listing and behind branches, and nowhere else |
| CodeBlocks.FlowCovered | macdbg/core/code_navigation.py:24-57 | every way a row can go within the listing is the next row of its block, or the row is the last one, a decoded edge leads there and a block starts there |
| CodeBlocks.EdgesTrue | macdbg/core/code_navigation.py:42-57 | decoded edges are ways the last row can go, observed ones were observed |
| CodeBlocks.EdgesExact | macdbg/core/code_navigation.py:42-57 | an edge is there if and only if the last instruction of the block asks for it: a jump or taken branch to its target, an indirect one to each observed place or unresolved, a fallthrough to the next row of the listing |
| MemorySearch.SearchWindow | macdbg/core/debugger.py:2640-2666 | scanning one chunk with its carry adds exactly the occurrences not covered before, up to the limit |
| MemorySearch.SearchRegion | macdbg/core/debugger.py:2624-2670 | the chunk loop finds every occurrence of a region once, across chunk boundaries, unless the limit or the budget stops it |
| MemorySearch.Search | macdbg/core/debugger.py:2612-2670 | the hits are the first ones of the naive search in its order, as many as asked for; fewer only when the byte budget ran out |
| Patches.Normalized | macdbg/core/patch_export.py:16-31 | refuses exactly the lists with a patch of unequal sides, else gives the normal form |
| Patches.NormalIsCanonical | macdbg/core/patch_export.py:24-31 | the runs are sorted, disjoint, maximal and without unchanged bytes, and list first original and last replacement of each address |
| Patches.CanonicalUnique | macdbg/core/patch_export.py:16-31 | two canonical lists with the same changes are the same list |
| Patches.NormalIsDiff | macdbg/core/patch_export.py:16-31 | for any history whose originals were the memory at that moment, the list is the canonical difference between first and last memory |
| Patches.DiffUnique | macdbg/core/patch_export.py:16-31 | there is only one canonical difference of two memories |
| Patches.RecordAllIsNormal | macdbg/core/debugger.py:1182-1187 | recording patch after patch gives the same list as normalizing the whole history at once |
| Patches.RecordOne | macdbg/core/debugger.py:1182-1187 | recording one more patch keeps the list the difference between original and current memory |
| PatchLists.NormalOfCanonical | macdbg/core/patch_export.py:16-31 | a canonical list is its own normal form, so normalizing twice changes nothing |
| PatchLists.RecordedMoves | macdbg/core/debugger.py:1160-1187 | recording an edit into any canonical list, current or not: an edited byte is listed with what was first there and what is there now, exactly when these differ, and every other byte is listed as before |
| PatchLists.WriteBack | macdbg/core/debugger.py:1160-1187 | an edit followed by writing the old bytes back gives the list back if and only if each listed byte of the range held its listed new value |
| PatchLists.StaleListChanges | macdbg/core/debugger.py:1160-1187 | a list and a byte the target has overwritten, for which it does not |
| Edits.VerifiedIsPut | macdbg/core/debugger.py:1160-1180 | a write that passes its verification has put all of its bytes and changed nothing else |
| Edits.PutBack | GUI/server/workspace.py:347-351 | writing back what was read undoes whatever part of a failed write has arrived |
| Edits.RevertIsDiff | macdbg/core/debugger.py:1189-1199 | restoring one run's bytes removes exactly that run from the difference |
| DebuggerMemory.Debugger.WriteMemory | macdbg/core/debugger.py:1160-1180 | reported successful exactly when every byte arrived; then and only then a tracked write enters the list, which stays the difference |
| DebuggerMemory.Debugger.RevertPatch | macdbg/core/debugger.py:1189-1199 | takes a patch back and drops it from the list exactly when its bytes are still there and the write verifies; refused with no effect when the live bytes are others, and the bytes are always there while the list is the difference |
| DebuggerMemory.Debugger.WriteRegister | GUI/server/workspace.py:367-380 | a write under any name of a register succeeds exactly when the whole parent register has the intended bytes, and then the name shows the data |
| DebuggerMemory.Debugger.ReadRegister | GUI/server/workspace.py:358-365 | the low bytes of the parent register, as many as the name is wide |
| DebuggerMemory.ReadAfterWrite | GUI/server/workspace.py:358-380 | what a successful write put under a name is read back under it |
| DebuggerMemory.AliasAfterWrite | GUI/server/workspace.py:358-380 | what every other name shows after a write: of the same register the data in the low bytes, above them zeros after a w name and the old bytes otherwise; of other registers what it showed |
| DebuggerMemory.SameRegister | GUI/server/workspace.py:367-388 | fp is x29 and lr is x30; w names are parts of x registers and q, d, s, h and b names of v registers |
| DebuggerMemory.Widths | GUI/server/workspace.py:358-365 | how many bytes each name shows: 8 for x, fp and lr, 4 for w and s, 16 for v and q, 8 for d, 2 for h, 1 for b |
| Undo.PerformKeepsTracked | GUI/server/workspace.py:341-411 | accepted edits keep the list the difference between original and current memory |
| Undo.UndoInverts | GUI/server/workspace.py:341-438 | any run of at most 100 accepted memory and register edits at one stop, with overlapping ranges and any names of the same registers, followed by as many undos: none is refused, memory and registers are what they were, and the list is if and only if each listed byte among those edited held its listed new value when the edits began |
| Undo.UndoInvertsTracked | GUI/server/workspace.py:341-438 | in particular the list comes back in every session whose list is the difference between original and current memory |
| Undo.StaleUndo | GUI/server/workspace.py:413-438 | a session in which an edit and its undo change the list |
| Undo.ListAfter | GUI/server/workspace.py:341-356 | the list after any run of edits, from any canonical list: the bytes edited are listed with what was first there and what is there now, all others as before |
| Undo.StackIs | GUI/server/workspace.py:353-355 | after any run of edits the stack holds, oldest first, exactly the last 100 of the edits that were on it and those made since; fewer only when there were fewer |
| Undo.LaterStopRefuses | GUI/server/workspace.py:413-423 | once the target has stopped again no earlier edit can be undone, whatever memory and registers hold |
| Undo.UndoStopsThere | GUI/server/workspace.py:413-438 | nor behind the edits of the later stop: these are undone and no more |
| Workspace.Workspace.EditMemory | GUI/server/workspace.py:341-356 | refused, done or failed exactly as the bytes allow, whatever the list says; a failed edit whose rollback succeeds changes neither memory, list, registers nor stack |
| Workspace.Workspace.EditRegister | GUI/server/workspace.py:382-411 | done exactly when the register verifies; a failed edit that is rolled back changes nothing |
| Workspace.Workspace.Undo | GUI/server/workspace.py:413-438 | refused, and without effect, if and only if the target is not stopped, nothing was edited, the last edit was made at another stop or its register in another thread, or its bytes are no longer there; done, it leads to the state one undo of the session leads to; failed, list and stack stay |
| Manifest.TranslationsInverse | macdbg/core/macho.py:68-79 | file offsets and addresses translate back and forth where both translations succeed |
| Manifest.FileOffsetExact | macdbg/core/macho.py:68-73 | an address has a file offset exactly when one section with file bytes, of an image that is not encrypted, has the whole range: as far into the section |
| Manifest.FileAddressExact | macdbg/core/macho.py:75-79 | an offset has an address exactly when one section has the range in the file |
| Manifest.CheckEntries | macdbg/core/patch_export.py:110-121 | the first pass is passed exactly by entries that do not overlap and each have their original bytes in the file and in memory; nothing is written |
| Manifest.RollBack | macdbg/core/patch_export.py:129-132 | every touched range is written back, last first; when all succeed, as they do when the restoring writes arrive, memory is as before, partial writes included |
| Manifest.ApplyAll | macdbg/core/patch_export.py:122-132 | every range is written if and only if every write is verified; otherwise, when the rollback succeeds, memory is as before |
| Manifest.ArrivalsLand | macdbg/core/patch_export.py:122-127 | writes that arrive completely and say so are all verified |
| Manifest.RecordEach | macdbg/core/patch_export.py:133 | the list is the old one with the ranges recorded one by one; for apart ranges a list that was the canonical difference is the one to the new memory |
| Manifest.ListAfterImport | macdbg/core/patch_export.py:122-133 | the list after an import of apart ranges, from any canonical list: the imported bytes are listed with what was first there and what was written, all others as before |
| Manifest.Import | macdbg/core/patch_export.py:100-135 | accepted if and only if the entries are apart and each has its original bytes in the file and in memory; then applied if and only if asked for and every write is verified: every range of disjoint sections holds its new bytes and a list that was the current difference stays it; refused, checked only or rolled back, nothing has changed |
| ManifestExport.Export | macdbg/core/patch_export.py:47-64 | a manifest is written exactly when there is a run and every run of the normal form lies in one section of the file, has its original bytes there and its new bytes in memory; it has one entry for each run |
| ManifestExport.ManifestAccepted | macdbg/core/patch_export.py:47-121 | the manifest of a list that is the difference between original and current memory, of sections with disjoint file ranges, is accepted on the original memory if and only if no run is longer than 4096 bytes and there are at most 4096 |
| ManifestExport.ManifestRoundTrip | macdbg/core/patch_export.py:47-133 | imported on the original memory such a manifest gives back the patched memory and the list |
| ManifestExport.LongRunRefused | macdbg/core/patch_export.py:108-112 | runs that are exported and whose entries every import refuses |
| TextGate.ValidateIntegrity | macdbg/core/anti_analysis.py:842-894 | with the cloak on, passes exactly when the hardware registers suffice, the code section is mapped, every enabled breakpoint location in it belongs to an installed hardware breakpoint the debugger or tracer set, and no listed patch reaches into it |
| TextGate.GateExact | macdbg/core/anti_analysis.py:842-894 | for any canonical list, current or not, the gate opens exactly when no byte of the code section is listed and every breakpoint in it passes |
| TextGate.GateOfLocations | macdbg/core/anti_analysis.py:868-893 | the same said of fields: each enabled location in the code section of an enabled breakpoint is of a hardware breakpoint with an owned id and installed; nothing else is in the way |
| TextGate.GateOfMemory | macdbg/core/anti_analysis.py:842-894 | an open gate means that every byte of the code section is original; it opens exactly then, breakpoints passing, when the listed bytes of the section are as the list says |
| TextGate.KeptListRefused | macdbg/core/debugger.py:1189-1199 | a code byte patched before a restart: the section is original, the gate closed and reverting refused |
| TextGate.TornWriteUnseen | macdbg/core/debugger.py:1160-1180 | a failing write that changes a byte of the code section with the gate open |
| TextGate.OtherWriteExact | macdbg/core/debugger.py:1160-1180 | an untracked or failed write keeps what the gate relies on if and only if it leaves the unlisted bytes of the code section alone |
| TextGate.LoadedIsSafe | macdbg/core/state.py:191-199 | a target with its original code section and any canonical list loaded with it, whose code bytes are listed with the original ones before, is where a run may begin |
| TextGate.GateKeepsText | macdbg/core/anti_analysis.py:842-894 | behind the gate the code section is byte-identical and no software trap is in it |
| TextGate.EveryResumeIntact | macdbg/core/debugger.py:638-656 | over any run of tracked writes, other writes that leave the unlisted code bytes alone, reverts, breakpoint operations, resumes and restarts, from any list new or loaded, every resume happens with the original code section in force |
| TextRuns.UndoIsWrite | GUI/server/workspace.py:421-438 | an undo of a memory edit is one tracked write of such a run, and an undo of a register edit none |
| TextRuns.ImportIsWrites | macdbg/core/patch_export.py:122-133 | an applied import of apart ranges leads where a run of tracked writes, one for each range, leads |
| ResumeProtocol.StopsHandledOnce | GUI/server/engine.py:466-486 | however notices are repeated, delayed and mixed with commands, no stop of a process is acted on twice |
| ResumeProtocol.OneRequestPerStop | GUI/server/engine.py:466-588 | on every run without an early resume, over all paths of all handlers, the target is asked to run again before its next stop if and only if a user resume is taken up between a request and the report that it runs; there are exactly as many such requests as such resumes |
| ResumeProtocol.NotedNeverHasty | GUI/server/engine.py:752-793 | when every resume is noted and user resumes follow the notice of their stop, no command or first notice is taken up between a request and its report, and no request is made twice, whenever the report arrives |
| ResumeProtocol.PendingHolds | GUI/server/engine.py:1566-1624 | on every run without an early resume, while a fork or exec call waits the target stays at that stop and the call undecided, through any number of further notices and commands, until a decision for this very call, a kill, a new target or the end of the process |
| ResumeProtocol.EarlyExactly | GUI/server/engine.py:752-768 | from any state of such a run the next event opens the way to an undecided call whose target runs, and to a second request without a hasty resume, exactly when it is a user resume accepted before the notice of the stop |
| ResumeProtocol.EarlyUndecided | GUI/server/engine.py:752-768 | a run in which a user resumes before the first notice and the target runs while the call is undecided |
| ResumeProtocol.StraysNext | GUI/server/engine.py:752-793 | one event makes one request too many exactly when it is a user resume taken up before the report of an earlier one |
| ResumeProtocol.SilentDecision | GUI/server/engine.py:1607-1624 | a run in which deciding a fork and continuing at once asks the target twice |
| ResumeProtocol.UnnumberedActedOn | GUI/server/engine.py:466-485 | while the target runs a notice is acted on exactly when it has no number and names this process or none, and it can then cause a request too many |
| ResumeProtocol.Engine.RunExecution | macdbg/core/debugger.py:150-187 | a request is made only with no undecided call or by the decision itself |
| ResumeProtocol.Engine.ResumeAction | GUI/server/engine.py:752-793 | a user resume is taken up exactly when nothing is undecided or under way, the target is reported as stopped and the gates open; at a target that accepts it runs and is noted, and a failed one is cleared |
| ResumeProtocol.Engine.ActOnStop | GUI/server/engine.py:486-557 | a stop is handled by preparation, integrity, script hit, user step, internal stop, fork shield, defenses and tracer in this order; a stopped target runs again exactly when the case that applies asks for it, a step goes on exactly when it is not done, and a call that is asked about is left for the user at that stop |
| ResumeProtocol.Engine.OnStopEvent | GUI/server/engine.py:466-486 | stale, foreign and repeated notices change nothing; the first notice of the current stop is acted on and remembered |
| ResumeProtocol.Engine.OnExitEvent | GUI/server/engine.py:486-588 | the end of the process clears the step and the undecided call, and the note of a resume when it has ended; of another process nothing |
| ResumeProtocol.Engine.DecideExecCall | GUI/server/engine.py:1566-1605 | a decision with an earlier stop's token, a dump or a failing one changes nothing; allowing a call at a stopped target that accepts resolves it and runs the target; found at a further hit, the call is resolved and the hit decides |
| ResumeProtocol.Engine.DecideForkCall | GUI/server/engine.py:1607-1624 | a valid decision at a stopped target that accepts resolves the call, runs the target and lifts breakpoints when shielded; an invalid or failed one leaves the call |
| ResumeProtocol.Engine.KillTarget | GUI/server/engine.py:889-895 | a kill drops the undecided call |
| ResumeProtocol.Engine.RestartTarget | GUI/server/engine.py:897-933 | a restart drops the undecided call and forgets the last stop |
| ResumeProtocol.Engine.PrepareTargetChange | GUI/server/engine.py:1708-1718 | a new target starts with nothing pending |
| RelativeCode.EncodedMeans | macdbg/core/assembly.py:10-50 | decoding the produced word (DDI 0487, section C6.2) gives back the register, condition or bit and the destination, its page for adrp |
| RelativeCode.ConditionalMeans | macdbg/core/assembly.py:33-37 | the field of an assembled conditional branch tests exactly the flags its name stands for (DDI 0487, section C1.2.4), and its destination is the one asked for |
| RelativeCode.NumberTests | macdbg/core/assembly.py:33-35 | every condition name has the one field that tests it, and only unknown names have none |
| RelativeCode.EncodesExactly | macdbg/core/assembly.py:10-50 | an instruction is refused exactly when its operands name nothing, no word reaches the destination, or the displacement would wrap |
| RelativeCode.WrapRefused | macdbg/core/assembly.py:12-31 | a branch that would wrap around the address space is representable and refused |
| Assembler.LayOut | macdbg/core/assembly.py:56-67 | the first pass refuses exactly malformed lines and repeated labels, and gives every label and instruction its address |
| Assembler.EncodeAll | macdbg/core/assembly.py:69-87 | the second pass succeeds exactly when every relative line encodes, and hands nop lines to the compiler for them |
| Assembler.Splice | macdbg/core/assembly.py:100 | the words replace their instructions, little-endian, and nothing else |
| Assembler.Assemble | macdbg/core/assembly.py:53-101 | succeeds exactly for acceptable listings; then there are four bytes a line, relative lines hold their words and all others the compiler's bytes |
| Assembler.LabelsHit | macdbg/core/assembly.py:53-101 | every relative line of assembled code that names a label decodes to the address of the instruction after that label, forward or backward |
| Assembler.AddressesHit | macdbg/core/assembly.py:77-86 | the same for numbers and for symbols of the program that no label hides |
| PauseClock.PauseAccounting.Stop | macdbg/core/auto_clock.py:33-38 | a stop under a new key starts a pause at the later of its stamp and the last resume; under the old key nothing changes |
| PauseClock.PauseAccounting.Total | macdbg/core/auto_clock.py:40-42 | the account and the time since the stop, if a pause is under way |
| PauseClock.PauseAccounting.Resume | macdbg/core/auto_clock.py:44-51 | closes the pause: the total stays what it was at that moment, however late it is asked for; hands out the old account |
| PauseClock.PauseAccounting.Rollback | macdbg/core/auto_clock.py:53-54 | every total is again what the token's account gives |
| PauseClock.AutomaticClock.RunExecution | macdbg/core/debugger.py:162-174 | a refused resume leaves the account as if it had not been tried, pause still running; an accepted one stops it |
| PauseClock.AutomaticClock.Adjust | macdbg/core/auto_clock.py:349-354 | the reading with the pauses taken out, never negative and for a monotonic clock never below the last one; no other clock's memory changes |
| PauseClock.PauseBound | macdbg/core/auto_clock.py:22-54 | on any run the true pauses are disjoint and in order, the account is at most their sum, and that is at most the time since the first stop |
| PauseClock.PauseExact | macdbg/core/auto_clock.py:22-54 | at every moment of a run the account is the sum of the true stop intervals less what restarts lost, and it is exact if and only if no open pause was seen again under another key and a later time; refused resumes and repeated observations included |
| PauseClock.RestartLoses | macdbg/core/auto_clock.py:33-38 | a run in which a new key seen while still stopped loses the beginning of the pause |
| PauseClock.ReadingsWithinTick | macdbg/core/auto_clock.py:349-354 | on any run every reading is within one tick of the time the target has truly been running plus what restarts lost, but for the time between sampling the clock and adding up the pauses |
| PauseClock.ReadingsNeverFall | macdbg/core/auto_clock.py:349-354 | on any run a monotonic clock never reads less than before |
| TraceLog.InstructionTrace.Start | macdbg/core/instruction_trace.py:68-114 | starts a file with its header exactly within the limits |
| TraceLog.StartedExact | macdbg/core/instruction_trace.py:68-114 | a recording starts exactly for 1 to 100000 rows, 4 KiB to 128 MiB and a header that leaves room |
| TraceLog.InstructionTrace.AppendLocked | macdbg/core/instruction_trace.py:129-151 | appends a numbered line, replaces an oversized one, and stops the recording at a limit |
| TraceLog.AppendsHold | macdbg/core/instruction_trace.py:129-151 | after any run of appends the file is the header and the kept rows numbered from 1, and the offsets point at them |
| TraceLog.KeptExact | macdbg/core/instruction_trace.py:129-151 | of any bodies appended the first are kept as given, an oversized one replaced by a note of its size, up to the first one there is no room for, which ends the recording |
| TraceLog.ReadBack | macdbg/core/instruction_trace.py:283-288 | every row reads back as it was written |
| TraceLog.InstructionTrace.Open | macdbg/core/instruction_trace.py:318-346 | opening succeeds exactly for files of whole, numbered, readable lines and finds their offsets |
| TraceLog.ReopenedExact | macdbg/core/instruction_trace.py:318-346 | a file is opened if and only if it is not too large, its first line is a header, and the rest are whole lines that read as rows numbered from 1, at most 100000 |
| TraceLog.ScanNumbered | macdbg/core/instruction_trace.py:327-343 | whatever is accepted on opening reads as rows numbered in order |
| TraceLog.RecordingReopens | macdbg/core/instruction_trace.py:318-346 | a recording started, appended to in whatever way and opened again has the same offsets and rows |
| TraceLog.InstructionTrace.QueryForward | macdbg/core/instruction_trace.py:291-315 | a page holds all matches up to where it ends, moves past at least one row, and ends only at the limit, after 5000 rows or at the end |
| TraceLog.InstructionTrace.QueryBackward | macdbg/core/instruction_trace.py:291-315 | the same backward, newest first |
| TraceLog.PagesComplete | macdbg/core/instruction_trace.py:291-315 | pages taken from where the one before ended show every matching row exactly once and in order, in at most as many pages as rows |
| TraceLog.PagingEnds | macdbg/core/instruction_trace.py:291-315 | any pages in a row that are not complete are fewer than the rows left, so paging ends |
| TraceLog.BackPagesComplete | macdbg/core/instruction_trace.py:291-315 | backward pages show every matching row before the start exactly once, newest first |
| TraceLog.PagingBackEnds | macdbg/core/instruction_trace.py:291-315 | paging backward ends |
| HookRuns.RunGood | macdbg/core/debugger.py:1488-1540 | after any run of defense, cloak and breakpoint operations the sysctl breakpoint is armed exactly while one of its owners is on, syscall hooks only while wanted, and nobody else's breakpoints are touched |
| HookRuns.RunInStep | macdbg/core/debugger.py:1711-1735 | when the symbols are found, the syscall hooks are armed exactly while some owner wants them |
| HookSwitches.DefenseSwitches | macdbg/core/debugger.py:1488-1520 | a sysctl defense is turned on exactly when the shared breakpoint is armed or its symbol found, and always turned off; nothing else is switched |
| HookSwitches.OwnSwitches | macdbg/core/debugger.py:1339-1357 | the ptrace and csops breakpoints are on exactly after turning them on with their symbol found |
| HookSwitches.SyncExact | macdbg/core/debugger.py:1711-1735 | the syscall hooks are armed for the symbols found when one of the four defenses is on, released when none is, left alone otherwise |
| HookSwitches.CloakSwitches | macdbg/core/anti_analysis.py:152-226 | turning the cloak on succeeds exactly when it is off and permitted, the shared breakpoint is armed or found, every entry symbol has a location and the environment is right; then both defenses are on and those that were off are borrowed |
| CloakRollback.FailedCloakRestores | macdbg/core/anti_analysis.py:152-262 | a failed attempt always leaves the breakpoint table as found if and only if no defense is waiting for its syscall hooks or both defenses the cloak borrows are on |
| CloakRollback.FailedCloakKeeps | macdbg/core/anti_analysis.py:152-262 | a failed attempt leaves the cloak, every flag and every owned hook as found, and the table but for syscall hooks a defense was waiting for |
| CloakRollback.FailedCloakLeavesHooks | macdbg/core/anti_analysis.py:248-262 | a failed attempt that leaves a hook behind |
| HookRuns.CloakOffKeeps | macdbg/core/anti_analysis.py:228-262 | after any run, turning the cloak off removes its entries and its two borrowed defenses, and keeps every hook, under the same id, that anyone else wants |
| HookRuns.BorrowedGoesOff | macdbg/core/anti_analysis.py:236-241 | a defense turned on by a user while borrowed goes off with the cloak |
| HookRuns.BorrowedRun | macdbg/core/anti_analysis.py:152-241 | a run in which that happens |
| HookManagers.Debugger.SyncSyscallBp | macdbg/core/debugger.py:1711-1735 | arms or releases the syscall hooks to follow their owners |
| HookManagers.Debugger.EnableScrub | macdbg/core/debugger.py:1488-1514 | turns one of the two sysctl defenses on, or leaves everything when the symbol is missing |
| HookManagers.Debugger.EnableAntiPtrace | macdbg/core/debugger.py:1339-1349 | arms the ptrace breakpoint once and lets the syscall hooks follow |
| HookManagers.Debugger.DisableAntiPtrace | macdbg/core/debugger.py:1351-1357 | removes it and releases the syscall hooks when nobody else wants them |
| HookManagers.Debugger.EnableAntiCsops | macdbg/core/debugger.py:1522-1532 | arms the csops breakpoint once and lets the syscall hooks follow |
| HookManagers.Debugger.DisableAntiCsops | macdbg/core/debugger.py:1534-1540 | removes it and releases the syscall hooks when nobody else wants them |
| HookManagers.Debugger.DisableScrub | macdbg/core/debugger.py:1498-1520 | turns it off and releases the shared breakpoint when nobody else is on |
| HookManagers.AnalysisCloak.Enable | macdbg/core/anti_analysis.py:152-226 | borrows what is off, hooks the entry symbols, and rolls back on any failure |
| HookManagers.AnalysisCloak.Disable | macdbg/core/anti_analysis.py:228-246 | removes the entries and gives the borrowed defenses back |

## Left out

- Decoding of bodies (charset, JSON, multipart, base64): only which bytes of the body are stored, its length and its status are modelled.
- Closing every HTTP stream at once: closing is per key.
- Program flow inside `_consume`: the program falls from the test of one mode to the next; the model goes round the loop, which visits the same modes in the same order.
- Tokenising of operands and assembly lines: operands are decoded values; whether a line is malformed is part of its decoding.
- Computed branches in listings: a run that follows one is assumed to land at the start of a block or to leave the listing.
- Stores to the listing itself: loads are read from the bytes the debugger saw, which the instruction is assumed to read too.
- Pair loads, exclusives and other instructions the analysis forgets everything at are one catch-all instruction.
- The compiler behind the assembler is any function from listings to code; its errors are a missing result.
- Undo.UndoInverts: does not model writes that fail on the way; `Workspace.Workspace.Undo` covers a single one.
- MemorySearch.Search: does not model short reads inside a readable region, the skipping of unreadable regions, cancelling, or the bound of 8192 regions.
- TextGate.EveryResumeIntact: does not model a cloak that is off, where the gate is not used; the target is assumed not to write its own code section, which a restart loads at the same address (address randomisation is switched off), and failed or untracked writes to leave the unlisted code bytes alone (`TextGate.OtherWriteExact`).
- Patch lists that are not canonical, which only a state file edited by hand can hold: every list the program saves is the result of normalizing, less reverted runs.
- Manifest.Import: does not model the hash and schema checks and module lookup that come before the entries.
- ManifestExport.Export: does not model the module lookup, so a run is in the main image when a section of it holds the run, nor writing the patched file.
- Mach-O parsing: sections are given; only the address translations are modelled.
- ResumeProtocol.StopsHandledOnce: does not model process ids that are used again, and takes every stop notice to carry a number.
- ResumeProtocol.OneRequestPerStop: does not model raw console commands that resume the target; what happens after an early resume is covered by `ResumeProtocol.EarlyExactly` only.
- FramePointer.HiddenWriteHarmless: does not model bytes the debugger reads for a load; loads are taken without them.
- PauseClock.ReadingsWithinTick: does not model 64-bit wrap-around of the counters, and takes each clock to be the time scaled and rounded down, after an epoch.
- TraceLog.RecordingReopens: does not model a write that fails half-way, after which opening reports an incomplete record; how a row is spelled on its line is any faithful encoding.
- Capturing registers and memory for the history, and exports to text.
- Return hooks of the cloak, the strings it allocates in the target, and other defenses with a breakpoint of their own alone.
- LLDB, Darwin quirks in breakpoints, networking, the HTTP server, windows, snapshots and preferences.
