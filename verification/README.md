# Verified models of the hard cores of anx

The repository bundles three libraries and one small utility whose correctness rests on intricate state. This project
models them in Dafny, in the form the source has (classes and loops where it updates state in place, functions where
it computes), and proves what their documentation and tests rely on, over every input and every run.

- **The protobuf arena.** `ArenaThreads` is the thread layer as a step system: threads interleave at every access to
  shared memory while they look for, create and publish their `SerialArena`, with compare-and-swaps that may fail for
  no reason, and arenas are created, reset and destroyed in between. `ArenaThreadSafety` has the invariant,
  `ArenaThreadRuns` the theorems over runs, `ArenaThreadSpace` the space counter against what the steps asked for, and
  `ArenaThreadProgress` when a call ends and when the cache and the hint spare it the search. `SerialArenas` has the
  classes `ArenaImpl` and `SerialArena` over an explicit address space (`ArenaMemory`): block headers, bump pointer,
  chain of blocks, and the cleanup chunks that live in the memory they manage.
- **The terminal engine, xterm.js.** `EscapeTable`, `EscapeParsing` and `EscapeChunks`: the transition table, the
  parser with its batched loops, and what batches and chunk borders can change. `EscapeGrammar` and `EscapeParams`:
  which sequences the terminal's own table recognises, what it reports of them, and what their parameters mean.
  `CircularLists` and `Markers`: the ring of lines and the markers that follow their lines. `LruSpec`, `LruMaps` and
  `GlyphAtlas`: the linked map and the glyph cache that hands out its cells. `Reflow`, `ReflowInverse`, `ReflowCopy`,
  `BufferLines`, `ReflowStrings`, `ReflowLosses` and `ReflowLines`: cutting wrapped lines into shorter rows, and
  moving the cells and the strings of combined characters in place. `MergeRanges`: the character joiners. `Utf32` and
  `InputHandling`: UTF-16 decoding in chunks, into the buffer of the input handler. `WriteBuffers`: chunks waiting for
  a timer.
- **The multipart codec of zmq_addon.hpp.** `MultipartCodec` is the two-pass encoder and the bounds-checked decoder of
  ZeroMQ RFC 50, `MultipartLaws` what they promise each other.
- **The cycle-rate limiter.** `Rates` is the Kotlin `Rate`.

Run `dafny verify dfyconfig.toml` to check everything. xterm.js is minified onto one line, so every reference to it is
to its line 1; the models name the exported functions they follow.

## How the models stand to the source

- A class here has the fields of the class there. Ghost fields hold what the contracts speak about: the order of
  nodes, the chain of blocks, the regions handed out, the cleanups registered.
- A method is proved against a specification function of its old state, and the run theorems are proved about that
  function: `CircularList` and `Buffer` against `Markers.Step`, `LruMap` against `LruSpec.Touch` and `LruSpec.Put`,
  the parser against `EscapeParsing.ChunkRun`, `WriteBuffer` against `WriteBuffers.Step`.
- Clocks, timers, handler results, allocators and the interleaving of threads are parameters or free choices, so the
  theorems hold for all of them.
- Where the code does not keep a promise, the exact condition under which it does is proved: DEL inside device control
  data (`BatchedIffNoDelInBatch`, `CutIffNoDelAtCut`, for any number of chunks `ChunksExact` and `ChunksLikeOneCall`,
  with the input of `DelInBatchDiffers`); strings of combined characters that are overwritten before they are copied,
  or replaced by strings left over in cells that hold no combined character any more (`LandIff`, `FitIff`, `CleanIff`,
  with the inputs of `StringLost` and `LeftOverShown`); rows that end on a first half whose second half was
  overwritten (`RowEnds`, with the input of `HalfOverwritten`); full rows that end on an empty cell before a wide
  character, which is taken for the cell that wrapping leaves unused, or texts that end on empty cells
  (`WrapAndJoin`); a code point too many for the parse buffer (`InputHandler.Parse`, `LostIff`, with the inputs of
  `LastPointLost`); code points that are lone surrogates (`PointsKept`); insertions and shifts around the ring
  (`SpliceIff`, `ShiftIff`); lists that grow behind a start that is not slot 0 (`GrowthKeeps`, with the list of
  `GrowthLoses`); sizes longer than needed (`Reencoded`); late calls (`OnGrid`).
- `MergeRange` treats ranges that only touch as separate. `MergeRanges.Holds` therefore looks at two things, the
  positions covered and the neighbouring positions that lie in one range; together they determine the list.
- Preconditions that the source leaves to its callers: requests are multiples of 8 and do not overflow with a block
  header added (the source stops the program otherwise); an initial block holds a block header and a `SerialArena`, as
  the debug check at arena.cc:318 wants, while the check at arena_impl.h:89 asks for a block header only; `Reset` and
  destruction do not overlap calls on the same arena; a lifecycle id that `Init` takes from the generator is one that
  no cache has seen.

## Model

| member | source | states |
|---|---|---|
| `ArenaThreadRuns.ListAlwaysSound` | `common/src/main/libs/protobuf/include/google/protobuf/arena.cc:334-358` | In every run of interleaved threads the list from `threads_` is unique, hence finite and acyclic, has at most one SerialArena per owner thread, and no thread ever follows a null or dangling pointer |
| `ArenaThreadRuns.NeverLost` | `common/src/main/libs/protobuf/include/google/protobuf/arena.cc:343-354` | A published SerialArena stays on the list with its owner, behind the ones published later, until its arena is reset or destroyed, whatever compare-and-swaps fail or succeed in between |
| `ArenaThreadRuns.ResultIsTheOneSearched` | `common/src/main/libs/protobuf/include/google/protobuf/arena_impl.h:333-358` | The SerialArena a thread ends up with, from its cache, the hint, the search or by creation, is the one the slow search of the list finds |
| `ArenaThreadRuns.CacheNeverStale` | `common/src/main/libs/protobuf/include/google/protobuf/arena_impl.h:347-358` | A thread cache with the id of a live arena holds the calling thread's live SerialArena of that arena, through any resets, destructions and reuse of addresses |
| `ArenaThreadRuns.SpaceIsExact` | `common/src/main/libs/protobuf/include/google/protobuf/arena.cc:109-125` | With no thread in the middle of adding a block, `space_allocated_` is the total size of the blocks reachable from `threads_`, each with the size in its header |
| `ArenaThreadRuns.ResetReturnsSpace` | `common/src/main/libs/protobuf/include/google/protobuf/arena.cc:99-107` | Reset frees lists of exactly the counted size, leaves only the initial block, and gives the arena a lifecycle id never used before |
| `ArenaThreadSpace.SpaceIsAsked` | `common/src/main/libs/protobuf/include/google/protobuf/arena.cc:109-125` | At every point of every run, `space_allocated_` and the blocks that threads have yet to count make up the initial block and the sizes of all blocks that the steps since the last creation or reset gave to the arena |
| `ArenaThreadSpace.SpaceIsAskedAndReached` | `common/src/main/libs/protobuf/include/google/protobuf/arena.cc:109-125` | With no thread in the middle of adding a block, the counter, the blocks reachable from `threads_` and the blocks that were given to the arena have one size |
| `ArenaThreadSpace.ResetReturnsAsked` | `common/src/main/libs/protobuf/include/google/protobuf/arena.cc:99-107` | Reset returns the size of all blocks given to the arena since it was created or reset before |
| `ArenaThreadProgress.CallEnds` | `common/src/main/libs/protobuf/include/google/protobuf/arena.cc:334-358` | Wherever the other threads have paused, a call that goes on alone has its SerialArena within as many steps as the arena has SerialArenas, and 15 more |
| `ArenaThreadProgress.NextCallIsFast` | `common/src/main/libs/protobuf/include/google/protobuf/arena_impl.h:333-358` | After the slow way, the thread's next call on that arena has its SerialArena in one step, whatever other threads did, if it used no other arena in between and the arena was not reset |
| `ArenaThreadProgress.HintIsFast` | `common/src/main/libs/protobuf/include/google/protobuf/arena_impl.h:339-345` | A thread back from other arenas has its SerialArena from the hint in three steps, if that is still its own |
| `ArenaThreadProgress.InitRemembers` | `common/src/main/libs/protobuf/include/google/protobuf/arena.cc:69-90` | A new or reset arena takes the next lifecycle id; with an initial block the creating thread has its SerialArena there, the only one, in cache and hint, and without one list and hint are empty and no cache changes |
| `ArenaThreadSafety.StepKeepsInv` | `common/src/main/libs/protobuf/include/google/protobuf/arena.cc:69-107` | Every enabled step (search, new block, set_next, CAS with spurious failure, cache and hint writes, init, reset, destroy) keeps the invariant the theorems rest on |
| `ArenaThreadSafety.KeepCas` | `common/src/main/libs/protobuf/include/google/protobuf/arena.cc:350-354` | A successful compare-and-swap pushes the SerialArena in front and keeps every other thread's search valid |
| `ArenaThreadSafety.KeepReset` | `common/src/main/libs/protobuf/include/google/protobuf/arena.cc:99-107` | A reset with no call inside the arena keeps the invariant for all other arenas, caches and threads |
| `ArenaThreads.LinkedUnique` | `common/src/main/libs/protobuf/include/google/protobuf/arena.cc:337-341` | The sequence that next pointers lead through is determined by memory, so following them ends |
| `SerialArenas.SerialArena.AllocateAligned` | `common/src/main/libs/protobuf/include/google/protobuf/arena_impl.h:183-192` | Hands out exactly one new region of the requested size at the returned 8-aligned address and keeps all earlier regions, headers and chunks disjoint |
| `SerialArenas.SerialArena.AllocateAlignedFallback` | `common/src/main/libs/protobuf/include/google/protobuf/arena.cc:192-205` | Syncs the old head's fill mark, links a block with room for the request, and enters `AllocateAligned` once more, which terminates |
| `SerialArenas.SerialArena.MaybeAllocateAligned` | `common/src/main/libs/protobuf/include/google/protobuf/arena_impl.h:198-209` | Allocates exactly when the head block has room and otherwise changes nothing |
| `SerialArenas.SerialArena.AddCleanup` | `common/src/main/libs/protobuf/include/google/protobuf/arena_impl.h:211-219` | Appends one cleanup; a full newest chunk is followed by one of twice the size, up to 64, allocated in the arena itself |
| `SerialArenas.SerialArena.AddChunk` | `common/src/main/libs/protobuf/include/google/protobuf/arena.cc:131-143` | The next chunk, of twice the size up to 64, is placed in memory handed out for it, in front of full ones |
| `SerialArenas.SerialArena.AddCleanupFallback` | `common/src/main/libs/protobuf/include/google/protobuf/arena.cc:131-145` | A new chunk in front that holds the node, with all older chunks full |
| `SerialArenas.SerialArena.AllocateAlignedAndAddCleanup` | `common/src/main/libs/protobuf/include/google/protobuf/arena_impl.h:221-225` | The cleanup registered is for the memory returned, and at most a chunk is allocated besides |
| `SerialArenas.SerialArena.CleanupListFallback` | `common/src/main/libs/protobuf/include/google/protobuf/arena.cc:295-313` | Runs every registered cleanup once, in exact reverse order of registration |
| `SerialArenas.SerialArena.CleanupList` | `common/src/main/libs/protobuf/include/google/protobuf/arena.cc:289-293` | The same, also when no cleanup was ever registered |
| `SerialArenas.SerialArena.SpaceUsed` | `common/src/main/libs/protobuf/include/google/protobuf/arena.cc:220-230` | Is the sum of all sizes allocated since creation, cleanup chunks included and the SerialArena itself excluded, over any number of blocks |
| `SerialArenas.SerialArena.Free` | `common/src/main/libs/protobuf/include/google/protobuf/arena.cc:250-277` | Returns the total size of the chain and gives back each of its blocks once, except the caller's initial block, reading no block after giving it back |
| `SerialArenas.SerialArena.constructor` | `common/src/main/libs/protobuf/include/google/protobuf/arena.cc:315-331` | The SerialArena is the first region of its own block, which must hold a block header and a SerialArena |
| `SerialArenas.ArenaImpl.NewBlock` | `common/src/main/libs/protobuf/include/google/protobuf/arena.cc:109-125` | The block has the start size, or twice that of the last block up to the maximum, and exactly what the request needs if that is more; where doubling wraps around at the word size, what is left of it takes its place; its size is counted |
| `SerialArenas.ArenaImpl.Init` | `common/src/main/libs/protobuf/include/google/protobuf/arena.cc:69-90` | Takes a new lifecycle id and leaves the initial block, if any, with a SerialArena of the calling thread, in its cache and the hint, and its size counted; without one the hint is null |
| `SerialArenas.ArenaImpl.AddSerial` | `common/src/main/libs/protobuf/include/google/protobuf/arena.cc:343-354` | A new SerialArena in a block of its own is put in front of the list and its block is counted |
| `SerialArenas.ArenaImpl.FindSerial` | `common/src/main/libs/protobuf/include/google/protobuf/arena.cc:337-341` | Finds the SerialArena of the thread on the list, or that there is none |
| `SerialArenas.ArenaImpl.GetSerialArenaFast` | `common/src/main/libs/protobuf/include/google/protobuf/arena_impl.h:333-345` | Succeeds exactly when the thread's cache has the arena's current id or the hint is the thread's own, and then gives the thread's SerialArena |
| `SerialArenas.ArenaImpl.GetSerialArenaFallback` | `common/src/main/libs/protobuf/include/google/protobuf/arena.cc:334-358` | Searches the list, adds a new SerialArena in front exactly when the thread has none, and stores it in the thread's cache, with the arena's id, and in the hint |
| `SerialArenas.ArenaImpl.CacheSerialArena` | `common/src/main/libs/protobuf/include/google/protobuf/arena_impl.h:347-358` | The id, the SerialArena and the hint are stored, so that both fast ways find it from now on |
| `SerialArenas.ArenaImpl.CacheKept` | `common/src/main/libs/protobuf/include/google/protobuf/arena_impl.h:312-320` | SerialArenas that other threads add leave a thread's cache right |
| `SerialArenas.ArenaImpl.GetSerialArena` | `common/src/main/libs/protobuf/include/google/protobuf/arena.cc:182-189` | Gives the calling thread its one SerialArena, from its cache, the hint, the list, or new exactly when the thread has none on the list |
| `SerialArenas.ArenaImpl.RegionsOfTwoApart` | `common/src/main/libs/protobuf/include/google/protobuf/arena.cc:109-125` | A region that one SerialArena handed out never meets a region, or the block header of a region, of another |
| `SerialArenas.ArenaImpl.AllocateAligned` | `common/src/main/libs/protobuf/include/google/protobuf/arena_impl.h:110-117` | A thread allocates in the one SerialArena it has, or in a new one that is then its only one; all SerialArenas stay valid and the space counter exact |
| `SerialArenas.ArenaImpl.AllocateAlignedFallback` | `common/src/main/libs/protobuf/include/google/protobuf/arena.cc:167-169` | The same for a thread whose SerialArena neither cache nor hint know |
| `SerialArenas.ArenaImpl.AddCleanup` | `common/src/main/libs/protobuf/include/google/protobuf/arena.cc:157-164` | A thread registers the cleanup behind all others of the one SerialArena it has, or in a new one that is then its only one; everything stays valid |
| `SerialArenas.ArenaImpl.AddCleanupFallback` | `common/src/main/libs/protobuf/include/google/protobuf/arena.cc:178-180` | The same for a thread whose SerialArena neither cache nor hint know |
| `SerialArenas.ArenaImpl.CleanupList` | `common/src/main/libs/protobuf/include/google/protobuf/arena.cc:279-287` | Runs the cleanups of all SerialArenas, each list newest first |
| `SerialArenas.ArenaImpl.FirstRunsFirst` | `common/src/main/libs/protobuf/include/google/protobuf/arena.cc:279-287` | The cleanups of the first SerialArena on the list run first, its newest before its others, and then those of the rest |
| `SerialArenas.ArenaImpl.SpaceUsed` | `common/src/main/libs/protobuf/include/google/protobuf/arena.cc:211-218` | Is the sum over all SerialArenas; together with all block headers and the SerialArenas themselves it is at most `space_allocated_` |
| `SerialArenas.ArenaImpl.FreeBlocks` | `common/src/main/libs/protobuf/include/google/protobuf/arena.cc:232-248` | Returns exactly `space_allocated_` and gives back every block of every list once, except the initial block; next pointers are read before their block goes |
| `SerialArenas.ArenaImpl.Reset` | `common/src/main/libs/protobuf/include/google/protobuf/arena.cc:99-107` | Runs all cleanups, returns the counted space, gives back all blocks but the initial one and starts over from it |
| `ArenaMemoryProofs.HandedOutSafely` | `common/src/main/libs/protobuf/include/google/protobuf/arena.cc:192-205` | Every region handed out is 8-aligned, lies inside its live block behind the header, and meets no other region and no header |
| `ArenaMemoryProofs.NodesInside` | `common/src/main/libs/protobuf/include/google/protobuf/arena_impl.h:152-159` | Every node of every cleanup chunk lies inside the region handed out for the chunk |
| `ArenaMemoryProofs.BumpKeeps` | `common/src/main/libs/protobuf/include/google/protobuf/arena_impl.h:183-192` | Moving the bump pointer keeps placement, disjointness and the account of bytes |
| `ArenaMemoryProofs.GrowKeeps` | `common/src/main/libs/protobuf/include/google/protobuf/arena.cc:192-198` | Switching to a new head block keeps placement, disjointness and the account of bytes, because the old header learns its fill mark first |
| `ArenaMemory.NewBlockSize` | `common/src/main/libs/protobuf/include/google/protobuf/arena.cc:109-120` | The sizes of all cases apart: the start size, twice the last size, the maximum, what the request needs, and the doubled size that wraps around; there always is room for header and request |
| `ArenaMemoryProofs.BlocksDouble` | `common/src/main/libs/protobuf/include/google/protobuf/arena.cc:109-120` | While all requests fit, the k-th block behind the first of a chain has min(start size * 2^k, maximum) bytes |
| `ArenaMemoryProofs.ChunksDouble` | `common/src/main/libs/protobuf/include/google/protobuf/arena.cc:131-143` | The chunks of every cleanup list have 8, 16, 32 and then always 64 nodes, in the order they were made |
| `ArenaMemory.AlignUpTo8` | `common/src/main/libs/protobuf/include/google/protobuf/arena_impl.h:53-55` | The least multiple of 8 that is not smaller |
| `EscapeParsing.EscapeSequenceParser.Parse` | `app/src/main/assets/web/js/xterm.js:1` | The parser with batched print, parameter, OSC and DCS loops reports, code point by code point, what the machine without read-ahead reports, ends in its state, and stops exactly where the error handler asks to; a length beyond the array reads `undefined` there, as the source does |
| `EscapeParsing.EscapeSequenceParser.ReadBatch` | `app/src/main/assets/web/js/xterm.js:1` | A batch is the longest run of code points that the inner loop of its action accepts |
| `EscapeParsing.EscapeSequenceParser.ReadParams` | `app/src/main/assets/web/js/xterm.js:1` | The parameter loop stays in step with the machine that takes one code point at a time |
| `EscapeParsing.EscapeSequenceParser.Dispatch` | `app/src/main/assets/web/js/xterm.js:1` | The single actions do to state, parameters and handlers what the table prescribes |
| `EscapeParsing.Vt500BatchSafe` | `app/src/main/assets/web/js/xterm.js:1` | `VT500_TRANSITION_TABLE` sends every code point of a batch, other than DEL in DCS data, to the same entry, which makes batching sound |
| `EscapeParsing.BatchesMaximal` | `app/src/main/assets/web/js/xterm.js:1` | What the table takes for text or data in the state of a batch is exactly what the loop of the batch takes, but for DEL in DCS data, which the loop takes too |
| `EscapeParsing.ParamsMaximal` | `app/src/main/assets/web/js/xterm.js:1` | What the table takes for parameter bytes in the parameter states is exactly what the parameter loop takes |
| `EscapeGrammar.ControlSequence` | `app/src/main/assets/web/js/xterm.js:1` | ESC [ or 155, at most one prefix byte, parameter bytes, intermediate bytes and a final byte, in whatever state the parser is: exactly one `Csi` is reported, with the bytes collected and the parameters of this sequence only, and the parser is back on the ground; a string the ESC interrupts is ended first |
| `EscapeGrammar.Malformed` | `app/src/main/assets/web/js/xterm.js:1` | A parameter byte behind an intermediate one, or a prefix byte behind a parameter: the control sequence is skipped up to its final byte without a report |
| `EscapeGrammar.EscapeSequence` | `app/src/main/assets/web/js/xterm.js:1` | ESC, intermediate bytes and a final byte other than the introducers: exactly one `Esc` is reported, in whatever state the parser is |
| `EscapeGrammar.OscString` | `app/src/main/assets/web/js/xterm.js:1` | ESC ] or 157, data, and each of the terminators: start, all data bytes but the control characters, and the end are reported, a failure exactly for CAN and SUB; an ESC goes on with an escape sequence |
| `EscapeGrammar.DeviceControlString` | `app/src/main/assets/web/js/xterm.js:1` | ESC P or 144, header, data, and each of the terminators: one hook with the collected bytes and parameters, the data and the unhook are reported |
| `EscapeGrammar.MalformedString` | `app/src/main/assets/web/js/xterm.js:1` | A device control string with a misplaced byte in its header is skipped without a report, up to 156 |
| `EscapeGrammar.SkippedString` | `app/src/main/assets/web/js/xterm.js:1` | ESC X, ESC ^, ESC _ and 152, 158, 159 introduce strings that are skipped without any report, up to 156 |
| `EscapeGrammar.Text` | `app/src/main/assets/web/js/xterm.js:1` | Text is printed code point by code point and leaves the parser as it is |
| `EscapeGrammar.ControlsWithin` | `app/src/main/assets/web/js/xterm.js:1` | Control characters inside escape and control sequences are executed at once and leave them as they are, DEL is dropped, and in the header of a device control string both are dropped |
| `EscapeGrammar.Cancelled` | `app/src/main/assets/web/js/xterm.js:1` | CAN and SUB end everything: a string fails, anything else is cut off and the control is executed |
| `EscapeGrammar.HighControls` | `app/src/main/assets/web/js/xterm.js:1` | The controls above 127 that introduce nothing are executed in every state; 156 ends a string and is dropped otherwise |
| `EscapeGrammar.HighCodes` | `app/src/main/assets/web/js/xterm.js:1` | Code points from 160 on are printed, are data, are dropped by a sequence that is skipped, and are an error in any other sequence |
| `EscapeGrammar.ParserTakes` | `app/src/main/assets/web/js/xterm.js:1` | On code points without DEL the batched parser reports exactly what these laws say of the table |
| `EscapeParams.ListMeans` | `app/src/main/assets/web/js/xterm.js:1` | Up to 32 parameters with up to 32 sub-parameters in all, written as digits with semicolons and colons, mean the numbers they spell, 2147483647 at most, 0 for an empty parameter and -1 for an empty sub-parameter |
| `EscapeParams.ParamsFull` | `app/src/main/assets/web/js/xterm.js:1` | A parameter beyond the 32nd is dropped with all its digits |
| `EscapeParams.SubsFull` | `app/src/main/assets/web/js/xterm.js:1` | A sub-parameter beyond the 32nd is dropped with all its digits |
| `EscapeParams.CollectedApart` | `app/src/main/assets/web/js/xterm.js:1` | The number reported tells the prefix, the intermediate bytes and the final byte, up to four of them, from all others |
| `EscapeParams.CollectedWraps` | `app/src/main/assets/web/js/xterm.js:1` | Of more bytes the last four are left, as a signed 32-bit number |
| `EscapeParams.ColorSequence` | `app/src/main/assets/web/js/xterm.js:1` | ESC [ 3 1 m is reported as final byte m with the parameter 31 |
| `EscapeChunks.BatchedIffNoDelInBatch` | `app/src/main/assets/web/js/xterm.js:1` | One call ends in the state of the transition table, and reports what the table reports if and only if no DEL directly follows a code point that the table takes for DCS data |
| `EscapeChunks.DelInBatchDiffers` | `app/src/main/assets/web/js/xterm.js:1` | The input ESC P q A DEL, from the initial state, on which loop and table differ: the loop passes the DEL on as data |
| `EscapeChunks.CutIffNoDelAtCut` | `app/src/main/assets/web/js/xterm.js:1` | Cutting the input in two changes nothing if and only if the second part does not begin with a DEL that the first part leaves inside a DCS batch; the end state never changes |
| `EscapeChunks.ChunksLikeOneCall` | `app/src/main/assets/web/js/xterm.js:1` | For any number of chunks, the calls report what one call on the whole reports if and only if no chunk begins with a DEL inside a DCS batch |
| `EscapeChunks.ChunksExact` | `app/src/main/assets/web/js/xterm.js:1` | For any number of chunks, the calls report what the table reports on the whole if and only if within no chunk a DEL directly follows DCS data; the end state is always the table's |
| `EscapeChunks.ChunksFollowTable` | `app/src/main/assets/web/js/xterm.js:1` | However the input is cut into calls, with no DEL inside a DCS string the reports are those of the table on the whole input |
| `EscapeChunks.MergedIffSame` | `app/src/main/assets/web/js/xterm.js:1` | Merging adjacent ranges identifies exactly the reports that agree code point by code point |
| `EscapeChunks.ChunkingIsInvisible` | `app/src/main/assets/web/js/xterm.js:1` | Any two ways to cut the same input, with no DEL inside a DCS string, give the same handler calls once adjacent ranges are merged, and the same end state; what it takes for reported is what `ParseAll` ensures |
| `EscapeChunks.ParseAll` | `app/src/main/assets/web/js/xterm.js:1` | One call of `parse` a chunk, on one parser object: unless a call aborts, the handlers got what the chunks give, and, with no DEL inside a DCS string, merged they are those of the table on the whole input |
| `CircularLists.CircularList.Push` | `app/src/main/assets/web/js/xterm.js:1` | Appends, then drops the oldest element if the list was full, and fires a trim of 1 exactly then |
| `CircularLists.CircularList.Recycle` | `app/src/main/assets/web/js/xterm.js:1` | Turns the oldest element into the newest and fires a trim of 1; fails and changes nothing unless the list is full |
| `CircularLists.CircularList.Pop` | `app/src/main/assets/web/js/xterm.js:1` | The contents before are those after and the element returned |
| `CircularLists.CircularList.TrimStart` | `app/src/main/assets/web/js/xterm.js:1` | Drops the oldest elements, at most all, and fires their number |
| `CircularLists.CircularList.SetMaxLength` | `app/src/main/assets/web/js/xterm.js:1` | Keeps the first elements in order; the list is whole afterwards if and only if all of them fit, and then it has the same contents |
| `CircularLists.CircularList.SetLength` | `app/src/main/assets/web/js/xterm.js:1` | Shortening keeps the oldest elements; growing, up to the capacity, clears the slots by their raw index, from the length on |
| `CircularLists.GrowthKeeps` | `app/src/main/assets/web/js/xterm.js:1` | Growing keeps the elements of the list if and only if it starts at slot 0, or not before the slot of the new length |
| `CircularLists.GrowthLoses` | `app/src/main/assets/web/js/xterm.js:1` | A list of two elements in slots 1 and 2 that loses the second when it is made to hold three |
| `CircularLists.CircularList.Get` | `app/src/main/assets/web/js/xterm.js:1` | Reads by position, any number of laps ahead, through the wrap of the ring |
| `CircularLists.CircularList.Set` | `app/src/main/assets/web/js/xterm.js:1` | Writes by position, any number of laps ahead, and changes no other position |
| `CircularLists.CircularList.Splice` | `app/src/main/assets/web/js/xterm.js:1` | What the three copying loops leave, for any insertion however long; it is the deletion and insertion on a sequence, less the oldest elements, whose number is fired, if these all lie before the insertion or nothing lies behind it |
| `CircularLists.CircularList.ShiftElements` | `app/src/main/assets/web/js/xterm.js:1` | What the shift leaves for any offset, extending the list and trimming it one by one; it is a copy as if all elements were read first if count + offset is at most the capacity or the offset is the capacity; out-of-range arguments are reported in the order of the checks and change nothing |
| `CircularLists.SpliceIff` | `app/src/main/assets/web/js/xterm.js:1` | The insertion is as on a sequence if and only if the elements dropped all lie before it or nothing lies behind it, for a list whose last element is not inserted again |
| `CircularLists.ShiftIff` | `app/src/main/assets/web/js/xterm.js:1` | A shift to higher positions copies as if all elements were read first if and only if count + offset is at most the capacity or the offset is the capacity, for a list without repetition |
| `CircularLists.CircularList.OpenGap` | `app/src/main/assets/web/js/xterm.js:1` | The middle loop of splice, last element first: each element arrives at its place, or the one that has overwritten it around the ring before it was read |
| `CircularLists.CyclicApart` | `app/src/main/assets/web/js/xterm.js:1` | Positions less than one lap apart are different slots |
| `Markers.LinesAccounted` | `app/src/main/assets/web/js/xterm.js:1` | Over any run the lines are those of the start and the appended ones, less exactly the total of the trim amounts |
| `Markers.MarkFollows` | `app/src/main/assets/web/js/xterm.js:1` | Over any run a marker not disposed by hand is alive if and only if its line was not trimmed, and its number is less by the total trimmed |
| `Markers.SameLine` | `app/src/main/assets/web/js/xterm.js:1` | While it lives, a marker names the very line it was set on |
| `Markers.NewMarkerFollows` | `app/src/main/assets/web/js/xterm.js:1` | A marker set on line y names the element that line y held, as long as it lives, which is until more than y lines were trimmed |
| `Markers.DisposedForGood` | `app/src/main/assets/web/js/xterm.js:1` | A marker disposed by hand stays disposed over any run |
| `Markers.Buffer.PushLine` | `app/src/main/assets/web/js/xterm.js:1` | Ring, trim event and all marker listeners together make the step of the document |
| `Markers.Buffer.RecycleLine` | `app/src/main/assets/web/js/xterm.js:1` | The same for recycling a line |
| `Markers.Buffer.TrimLines` | `app/src/main/assets/web/js/xterm.js:1` | The same for trimming from the start |
| `Markers.Buffer.DisposeLineMarker` | `app/src/main/assets/web/js/xterm.js:1` | The same for disposing a marker by hand |
| `Markers.Buffer.AddLineMarker` | `app/src/main/assets/web/js/xterm.js:1` | A new living marker on the line of the call joins `markers` and listens from now on |
| `Markers.Buffer.Dispose` | `app/src/main/assets/web/js/xterm.js:1` | A marker is disposed once and leaves `markers`; its index is always found |
| `Markers.Buffer.FireTrim` | `app/src/main/assets/web/js/xterm.js:1` | All listeners run once on a copy of the list, also while disposals change `markers`; disposed markers keep listening and stay disposed |
| `LruMaps.LruMap.Get` | `app/src/main/assets/web/js/xterm.js:1` | Finds the value and makes a found key the most recent one; a miss changes nothing |
| `LruMaps.LruMap.Set` | `app/src/main/assets/web/js/xterm.js:1` | Stores the value as most recent, and a full map drops exactly its least recent key for a new one; links, map, size and pool stay consistent |
| `LruMaps.LruMap.Peek` | `app/src/main/assets/web/js/xterm.js:1` | Gives the value that the next eviction would drop |
| `LruMaps.LruMap.PeekValue` | `app/src/main/assets/web/js/xterm.js:1` | Finds the value without changing the order |
| `LruMaps.LruMap.UnlinkNode` | `app/src/main/assets/web/js/xterm.js:1` | Takes the node out of the doubly linked list wherever it is |
| `LruMaps.LruMap.AppendNode` | `app/src/main/assets/web/js/xterm.js:1` | Links the node behind the tail |
| `LruMaps.LruMap.Prealloc` | `app/src/main/assets/web/js/xterm.js:1` | Fills the pool with new nodes and leaves the map alone |
| `LruSpec.CacheIsLatest` | `app/src/main/assets/web/js/xterm.js:1` | After any run the cache is exactly the most recently used entries in order of use, so every eviction hit the least recently used key |
| `LruSpec.RecentlyUsed` | `app/src/main/assets/web/js/xterm.js:1` | In the cache are the keys whose last get or set is latest, in its order, each with the value last set: a key used but not there was last used before all that are, and the cache is full then |
| `GlyphAtlas.KeyInjective` | `app/src/main/assets/web/js/xterm.js:1` | `getGlyphCacheKey`, a bitwise or of shifted parts, is injective for code < 256 and colors < 512 |
| `GlyphAtlas.KeyPartsApart` | `app/src/main/assets/web/js/xterm.js:1` | The bitwise or of the shifted parts is their sum, and stays below 2^29, so that 32 bits hold it |
| `GlyphAtlas.DynamicCharAtlas.Draw` | `app/src/main/assets/web/js/xterm.js:1` | Keeps the cells in use exactly 0 .. size - 1 without duplicates, through hits, new cells, evictions and the limit per frame, and draws from the glyph's own cell |
| `GlyphAtlas.DynamicCharAtlas.AddGlyph` | `app/src/main/assets/web/js/xterm.js:1` | A new glyph gets the next free cell, or that of the evicted glyph |
| `GlyphAtlas.DynamicCharAtlas.BeginFrame` | `app/src/main/assets/web/js/xterm.js:1` | A frame begins with no new glyph drawn, and leaves the cells alone |
| `GlyphAtlas.PutKeeps` | `app/src/main/assets/web/js/xterm.js:1` | Giving out the next index or the evicted one keeps the indices exactly 0 .. size - 1 |
| `GlyphAtlas.GlyphsNeverShareCells` | `app/src/main/assets/web/js/xterm.js:1` | The rectangles of two cached glyphs never overlap on the canvas |
| `GlyphAtlas.CellOnCanvas` | `app/src/main/assets/web/js/xterm.js:1` | The cells fill the canvas row by row, and each lies inside it |
| `Reflow.GetNewLineLengths` | `app/src/main/assets/web/js/xterm.js:1` | The walk over wrapped lines terminates and gives the row lengths of cutting the joined text greedily, whatever the cells hold |
| `Reflow.GetTrimmedLength` | `app/src/main/assets/web/js/xterm.js:1` | Is n if and only if n is the end of the last cell with content, whose width counts, or 0 where no cell has any |
| `ReflowInverse.WrapAndJoin` | `app/src/main/assets/web/js/xterm.js:1` | Joining the lines that a text was wrapped into gives the text again if and only if its last cells are those of a character and no full row ends with an empty cell before a wide character |
| `Reflow.RowsKeepText` | `app/src/main/assets/web/js/xterm.js:1` | The rows joined are the text, whatever it is; each has between 1 and the new width cells, and is shorter than the width only as the last row or before a wide character |
| `Reflow.RowEnds` | `app/src/main/assets/web/js/xterm.js:1` | A row of full size ends on the first half of a wide character if and only if the last two cells of the width are first halves; no cut ever parts the two halves of a character |
| `Reflow.HalfOverwritten` | `app/src/main/assets/web/js/xterm.js:1` | A wide character printed over the second half of another one, an input on which a row ends on the half left alone |
| `Reflow.RowsPaired` | `app/src/main/assets/web/js/xterm.js:1` | The rows of a text with whole characters have whole characters |
| `Reflow.LinePaired` | `app/src/main/assets/web/js/xterm.js:1` | `getWrappedLineTrimmedLength` never ends the text of a line with whole characters inside one of them |
| `Reflow.TextPaired` | `app/src/main/assets/web/js/xterm.js:1` | The text of lines with whole characters has whole characters |
| `Reflow.CursorInside` | `app/src/main/assets/web/js/xterm.js:1` | The cursor of the walk, moved on by at most one line a step, never leaves the lines and looks at the cell of the text it means to |
| `ReflowLines.ReflowLine` | `app/src/main/assets/web/js/xterm.js:1` | Reflow of one wrapped line in place, whatever its cells and strings: the cells of every row always are those of the text, nothing else stays visible, and the rows display the text if and only if the strings of its combined characters land with their cells, which they do if and only if none is lost; a line that fits is left alone |
| `ReflowLines.MoveRows` | `app/src/main/assets/web/js/xterm.js:1` | The copying loop, last row first, moves all cells although it reads lines it is overwriting, and reads off the lengths of lines half overwritten; every string ends up where the copying of the keys puts it |
| `ReflowLosses.LandIff` | `app/src/main/assets/web/js/xterm.js:1` | Whatever strings are left over from earlier contents: the strings land with their cells if and only if for every combined character the first line that has a string at the column copied there has the right one at the start of its chain of keys |
| `ReflowLosses.ChainSteps` | `app/src/main/assets/web/js/xterm.js:1` | Within one line moved by d columns, a column gets the string of the first of the keys d columns apart that lead up to it without a gap |
| `ReflowLosses.FitIff` | `app/src/main/assets/web/js/xterm.js:1` | With keys that are columns, the strings land if and only if no wide character gets the string of the unused cell before it and no combined character gets another one of its line, a multiple of d columns away |
| `ReflowLosses.CleanIff` | `app/src/main/assets/web/js/xterm.js:1` | Without strings left over from earlier contents, the strings land with their cells if and only if no line that moves d > 0 columns within itself has two different strings d columns apart in the part that moves |
| `ReflowLosses.StringLost` | `app/src/main/assets/web/js/xterm.js:1` | An input, five columns to four, on which `copyCellsFrom` shows one combined character twice and loses the next |
| `ReflowLosses.LeftOverShown` | `app/src/main/assets/web/js/xterm.js:1` | An input, five columns to three, on which a left-over string in an unused cell replaces that of the wide character behind it, although no strings cross |
| `ReflowStrings.DisplayIff` | `app/src/main/assets/web/js/xterm.js:1` | Rows with the right cells display the text if and only if the strings land |
| `ReflowStrings.StrungStep` | `app/src/main/assets/web/js/xterm.js:1` | What one call of `copyCellsFrom` does to the strings of all columns of its row, at and behind the stretch it was called for |
| `BufferLines.BufferLine.CopyCellsFrom` | `app/src/main/assets/web/js/xterm.js:1` | Copies a stretch of cells in either direction, and then, whatever the stretch, the strings of all columns from the source column on, first first; within one line a cell or string is what was there when it was read; behind the end of an array, reads give 0 and writes are ignored |
| `BufferLines.PlainCopy` | `app/src/main/assets/web/js/xterm.js:1` | Between two lines, and within one in the direction that suits, cells are copied as if all were read first |
| `BufferLines.BufferLine.CopyStrings` | `app/src/main/assets/web/js/xterm.js:1` | Every string from the source column on goes d columns further; within one line it is read only after the string d columns before it has been written over it |
| `ReflowCopy.WrappedLengthKept` | `app/src/main/assets/web/js/xterm.js:1` | The trimmed length of a line can be read off after all lines below it have moved, even when the first cell below was overwritten |
| `ReflowCopy.RowsBehind` | `app/src/main/assets/web/js/xterm.js:1` | A row never starts before the line of its index does, so the copy runs behind its source |
| `ReflowCopy.AsManyRows` | `app/src/main/assets/web/js/xterm.js:1` | The text never needs fewer rows than it had lines, if the last line does not begin with a wide character without content |
| `MergeRanges.RangeList.MergeRange` | `app/src/main/assets/web/js/xterm.js:1` | Editing the array in place keeps it sorted and disjoint, covers and joins exactly what it did before and what the new range does, and adds an empty range only if the new one is empty |
| `MergeRanges.MergeAll` | `app/src/main/assets/web/js/xterm.js:1` | Merging the ranges of all joiners covers and joins what they do together, given that the first joiner's own list is sorted and disjoint |
| `MergeRanges.Determined` | `app/src/main/assets/web/js/xterm.js:1` | A sorted disjoint list without empty ranges is determined by what it covers and joins |
| `MergeRanges.OrderIndependent` | `app/src/main/assets/web/js/xterm.js:1` | Whatever the order of merging, and however often a range is repeated, ranges that are not empty give the same list |
| `Utf32.StringToUtf32.Decode` | `app/src/main/assets/web/js/xterm.js:1` | For every chunk and every target: returns the number of code points of the held-back unit and the chunk, writes those that fit, and holds back a high surrogate at the end |
| `Utf32.LostIff` | `app/src/main/assets/web/js/xterm.js:1` | Decoding a chunk into an array of at least its length loses a code point, the last, if and only if a unit is held back, the chunk fills the array, and no pair makes up for that unit |
| `Utf32.LastPointLost` | `app/src/main/assets/web/js/xterm.js:1` | An input for every array length on which the last code point is lost |
| `Utf32.PointCount` | `app/src/main/assets/web/js/xterm.js:1` | A string has as many code points as units if and only if it has no pair and no high surrogate at its end |
| `InputHandling.InputHandler.Parse` | `app/src/main/assets/web/js/xterm.js:1` | Grows the buffer, cuts the string into pieces of 131072 units and decodes each: the parser gets exactly the code points of the string if and only if no piece fills the buffer while a unit is held back that no pair in it makes up for |
| `InputHandling.HandedIff` | `app/src/main/assets/web/js/xterm.js:1` | Over all pieces, at most one code point of each is missing, and none is, and all lengths are right, if and only if no piece overfills the buffer |
| `InputHandling.ShortStringsKept` | `app/src/main/assets/web/js/xterm.js:1` | A string of one piece that follows nothing held back never loses a code point |
| `Utf32.Utf32ToString` | `app/src/main/assets/web/js/xterm.js:1` | Gives the units of all code points in order, which is what `StringKept` proves to undo decoding |
| `Utf32.ChunkingInvisible` | `app/src/main/assets/web/js/xterm.js:1` | Any chunking of a string, lone surrogates included, gives the same code points and the same unit held back |
| `Utf32.StringKept` | `app/src/main/assets/web/js/xterm.js:1` | The code points encoded again and the unit held back are the original string |
| `Utf32.PointsKept` | `app/src/main/assets/web/js/xterm.js:1` | Code points survive encoding and decoding if and only if no surrogate among them pairs up with what follows |
| `Utf32.PairInverse` | `app/src/main/assets/web/js/xterm.js:1` | Combining and splitting surrogate pairs are inverse, as sections 2.1 and 2.2 of RFC 2781 require |
| `Utf32.SplitInverse` | `app/src/main/assets/web/js/xterm.js:1` | Splitting and combining a code point above 0xFFFF gives it back |
| `Utf32.PairsInOrder` | `app/src/main/assets/web/js/xterm.js:1` | The surrogate pairs in their order are the code points from 0x10000 on in theirs |
| `WriteBuffers.InOrderOnce` | `app/src/main/assets/web/js/xterm.js:1` | Over any run of writes, synchronous writes and ticks that stop early, everything accepted is handled once, in call order, each callback right behind its chunk, or still waits in order |
| `WriteBuffers.TickScheduled` | `app/src/main/assets/web/js/xterm.js:1` | Whenever something waits, a tick is scheduled |
| `WriteBuffers.TicksDrain` | `app/src/main/assets/web/js/xterm.js:1` | Ticks alone empty the queue, in no more ticks than it has chunks |
| `WriteBuffers.OneTick` | `app/src/main/assets/web/js/xterm.js:1` | As long as nothing is written synchronously, exactly one tick is scheduled while something waits, and none otherwise |
| `WriteBuffers.HandledData` | `app/src/main/assets/web/js/xterm.js:1` | The action gets the data of all chunks in order |
| `WriteBuffers.CallbacksBehind` | `app/src/main/assets/web/js/xterm.js:1` | Every callback is called right behind the action on its own chunk |
| `WriteBuffers.CallbacksCalled` | `app/src/main/assets/web/js/xterm.js:1` | No callback is left out |
| `WriteBuffers.WriteBuffer.Write` | `app/src/main/assets/web/js/xterm.js:1` | Accepts exactly when the unhandled data before it are at most 50,000,000 units, and then queues the chunk and schedules a tick for an empty queue |
| `WriteBuffers.WriteBuffer.WriteSync` | `app/src/main/assets/web/js/xterm.js:1` | Handles everything that waits and then the new data at once |
| `WriteBuffers.WriteBuffer.InnerWrite` | `app/src/main/assets/web/js/xterm.js:1` | A tick handles a first part of the queue, keeps `_pendingData` exact, and schedules the next tick exactly if something is left |
| `MultipartCodec.Encode` | `common/src/main/cpp/include/zmq/zmq_addon.hpp:220-258` | Fails exactly when a part exceeds 32 bits; otherwise fills exactly the size computed in the first pass with the encoded parts |
| `MultipartCodec.Decode` | `common/src/main/cpp/include/zmq/zmq_addon.hpp:275-302` | Gives the parts before the first malformed one, never reads out of bounds, and reports which bound was exceeded |
| `MultipartCodec.WriteNetworkOrder` | `common/src/main/cpp/include/zmq/zmq_addon.hpp:77-89` | Writes the four bytes, most significant first, and no others |
| `MultipartCodec.WrittenIsRead` | `common/src/main/cpp/include/zmq/zmq_addon.hpp:77-102` | Reading in network order undoes writing |
| `MultipartCodec.ReadIsWritten` | `common/src/main/cpp/include/zmq/zmq_addon.hpp:77-102` | Writing in network order undoes reading |
| `MultipartCodec.PartBytes` | `common/src/main/cpp/include/zmq/zmq_addon.hpp:220-258` | A part of up to 254 bytes has its size in front of it in one byte; a larger one has the byte 255 there and then four bytes of its size, each weighing 256 times the next |
| `MultipartCodec.LargerBytes` | `common/src/main/cpp/include/zmq/zmq_addon.hpp:77-89` | The first byte in which they differ is the larger one of a larger value |
| `MultipartLaws.RoundTrip` | `common/src/main/cpp/include/zmq/zmq_addon.hpp:220-302` | Decoding an encoding gives the same parts, for all parts the encoder accepts |
| `MultipartLaws.Truncated` | `common/src/main/cpp/include/zmq/zmq_addon.hpp:275-302` | Decoding any prefix of an encoding gives exactly the parts that are complete in it |
| `MultipartLaws.PrefixDecodes` | `common/src/main/cpp/include/zmq/zmq_addon.hpp:275-302` | A prefix of an encoding is accepted if and only if it ends at a part boundary |
| `MultipartLaws.CutError` | `common/src/main/cpp/include/zmq/zmq_addon.hpp:275-302` | A cut encoding gives the error of a size that is not complete exactly when it is cut within a five-byte size, and the error of a part that is not complete otherwise |
| `MultipartLaws.Reencoded` | `common/src/main/cpp/include/zmq/zmq_addon.hpp:220-302` | For any bytes that decode, encoding again is shorter by four bytes for every five-byte size below 255, is identical if and only if there is none, and decodes to the same parts |
| `Rates.Rate.Sleep` | `assets/src/main/java/com/flomobility/anx/common/Rate.kt:20-43` | Sleeps for what is left of the cycle; a call up to a period behind its deadline does not sleep and the deadline stands; one further behind starts the next cycle at the time of the call; after a step back of the clock it sleeps for one period |
| `Rates.SleepBounded` | `assets/src/main/java/com/flomobility/anx/common/Rate.kt:26-42` | No requested sleep exceeds the period, however the clock jumps, and a sleep ends at the next start |
| `Rates.Throughput` | `assets/src/main/java/com/flomobility/anx/common/Rate.kt:20-43` | With a steady clock, calls i < j satisfy return(j) - read(i) >= (j - i - 1) periods |
| `Rates.ThroughputTight` | `assets/src/main/java/com/flomobility/anx/common/Rate.kt:20-43` | The bound is reached |
| `Rates.OnGrid` | `assets/src/main/java/com/flomobility/anx/common/Rate.kt:20-43` | The deadlines stay on the grid start + k periods, without drift, if and only if no call comes before its cycle's start or more than a period late |
| `Rates.AfterLate` | `assets/src/main/java/com/flomobility/anx/common/Rate.kt:33-39` | After a call more than a period behind its deadline, the next call within a period sleeps for what is left of a period since the late call |
| `Rates.SteppedBack` | `assets/src/main/java/com/flomobility/anx/common/Rate.kt:26-31` | A clock that has stepped back behind the start makes the call sleep for a whole period, if that is positive |
| `Rates.GridOfLastLate` | `assets/src/main/java/com/flomobility/anx/common/Rate.kt:20-43` | The deadlines lie on the grid that begins with the last late call, as long as no call comes before its cycle starts |

## Left out

- ArenaThreadRuns.ListAlwaysSound: interleavings are sequentially consistent; memory orders weaker than that are not modelled.
- ArenaThreadRuns.CacheNeverStale: the lifecycle counter is unbounded, so its wrap-around after 2^63 arenas is not modelled, and neither is a new thread that gets the thread-local storage of one that ended.
- SerialArenas.SerialArena.AllocateAligned: sizes are those of a 64-bit machine, `block_alloc` always succeeds, and address sanitizer hooks are absent.
- SerialArenas.ArenaImpl.CleanupList: cleanups are recorded, not run, so a cleanup that uses the arena it belongs to is not covered.
- ArenaMemoryProofs.BlocksDouble: twice the maximum stays below 2^64; above, the doubled size may wrap around, as `SerialArenas.ArenaImpl.NewBlock` states.
- ArenaThreadProgress.CallEnds: the calls of the other threads stand still meanwhile; a thread that loses every compare-and-swap to others can be kept from its result.
- EscapeParsing.EscapeSequenceParser.Parse: handlers are calls in a log; chains of handlers with fallbacks, the OSC and DCS sub-parsers behind them, and the position given to the error handler are not modelled, and neither is a handler that changes the parser. The print loop, unrolled four times in the source, is one loop here.
- EscapeParsing.EscapeSequenceParser.Parse: parameters are a value; the reuse of their typed arrays is not modelled, and the preceding code point is only reset, as its other writers are handlers.
- EscapeChunks.ChunksFollowTable: a DEL inside a DCS string is excluded, because the inner loop passes it on as data while the table ignores it; `BatchedIffNoDelInBatch` and `CutIffNoDelAtCut` say exactly when that shows.
- CircularLists.CircularList.Splice: a deletion that reaches past the end of the list is excluded; the source then shortens the list by the full count.
- CircularLists.CircularList.SetLength: a length above the capacity, which makes the source add array elements outside the ring, is excluded.
- CircularLists.CircularList.ShiftElements: the stretch to copy lies inside the list and starts at most at its end after the shift; beyond that the source copies slots that hold no element.
- CircularLists.CircularList.Pop: popping an empty list, which makes the length negative in the source, is excluded.
- Markers.Buffer.AddLineMarker: the marker listens to trims only; the listeners for inserted and deleted lines are not modelled.
- Markers.Buffer.FireTrim: insert and delete events are not modelled, as the operations here do not fire them.
- LruMaps.LruMap.Set: keys are integers, the only keys in use; the key order of a JavaScript object plays no part.
- GlyphAtlas.DynamicCharAtlas.Draw: the canvas, the flag that a cell has reached the bitmap, and glyphs with RGB colors, which never reach the atlas, are not modelled.
- Reflow.GetNewLineLengths: all lines are as wide as the old width and the group is not empty.
- ReflowLines.ReflowLine: a single line that continues a line already trimmed from the buffer and fits the new width is left alone here, where the source would go on; the moving of the viewport and the insertion of the new lines into the ring are not modelled.
- ReflowLines.ReflowLine: a cell is its content, with the bit for combined characters, and its width; its colors and attributes, which are copied with it, are not modelled.
- ReflowLines.ReflowLine: a last line does not begin with a cell of width 2 without content, which no way of writing cells leaves; the text could then need fewer rows than it had lines.
- ReflowLosses.LandIff: every combined character has a string, which all ways of writing and copying cells keep.
- MergeRanges.RangeList.MergeRange: ranges are values, so that the inserted pair is not shared with the caller; a range that ends before it starts is excluded.
- MergeRanges.MergeAll: the first joiner's own list has to be sorted and disjoint; the source takes whatever that handler returns as the list to edit.
- InputHandling.InputHandler.Parse: the calls of the parser are recorded, with the code points it can read and the length it is told; the cursor moves, events and debug output around them are not modelled, and neither is `parseUtf8`.
- WriteBuffers.InOrderOnce: the action and the callbacks do not write to the buffer they are called from; data are strings, and what they throw is not modelled.
- MultipartCodec.Encode: sizes are unbounded integers, so the sum of the part sizes does not wrap around; the branch for big-endian machines, which copies memory as it is, is represented by its result.
- Rates.Throughput: times are integers without overflow; it needs a period that is not negative, that is, a positive frequency, and a clock that does not step back, while `SleepBounded` does not need the latter.
- `reflowLarger` and the layout functions around it: joining rows again follows the same cell moves.
- `Utf8ToUtf32`: its resume loop stops at a stored continuation byte 0x80, so that chunks can be told apart.
- `rate.cpp`: its unsigned subtraction wraps around when a cycle overruns; the signed Kotlin twin is modelled.
- Protobuf parsing in the generated `any.pb` and `api.pb` files: the primitives they call are not part of this model.
- Android components, JNI glue, publishers and subscribers, the TfLite runner and its RPC server, rendering, selection, accessibility and keyboard code: user interface, I/O and foreign calls.
