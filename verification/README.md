# Verified models of the runtime layer

A Dafny model of the parts of the runtime on which everything else stands, and proofs of what they promise:

- **Artifact cache** (`CacheState`, `CacheProtocol`, `CacheInvariant`, `CacheTheorems`, `CacheLookup`, `CacheAccount`,
  `CacheDepartures`, `CacheRegions`). The cache is a step system: a step is one lock region or one atomic operation of a
  lookup, a tick, an eviction or a cancellation, and steps interleave freely. An invariant over work tokens, touches,
  node lists and values is kept by all of them. The loops inside the lock regions are methods of a class over one
  cache's table, proved against the functions the steps are made of.
- **Lanes** (`LaneControl`, `LaneInvariant`, `LaneTick`, `LaneWakeup`, `LaneTheorems`, `LaneProgress`, `LaneBound`,
  `LaneLow`, `LaneStop`, `LaneRequests`, `LaneWaits`, `LaneRange`). The tick loop as N lanes with local variables, shared broadcast memory and a
  barrier that releases whoever waits, wherever each of them waits. That all wait at the same place is proved. The lanes
  refine the cache protocol, lose no request and no wake-up, never block for good, and every tick ends.
- **Arena** (`Arena`, `ArenaRuns`, `ArenaExact`, `ArenaWild`, `ArenaAlign`, `ArenaObject`). Chained, lazily committed blocks with a
  free list; runs of pushes, pops, alignments and writes.
- **COFF** (`Bytes`, `Archive`, `ArchiveProofs`, `ArchiveWriter`, `ObjectFile`, `ObjectProofs`, `ObjectMeaning`,
  `ObjectWriter`, `ObjectWide`, `Linking`). The object and archive writers down to the byte, and the parsers that read them back, after
  sections 3.3, 4, 5.2, 5.4 to 5.6 and 7.1 to 7.5 of the Microsoft PE/COFF Specification, revision 8.3; and the two
  together: what an archive of written objects says of their symbols.
- **Typed data** (`TypedData`, `TypedProofs`, `TypedCounts`, `TypedWhole`, `TypedCopy`, `TypedKept`, `TypedBytes`,
  `TypedFinite`, `TypedLoops`). The type-directed serializer and deserializer, two worklists that run apart and agree only because both
  push the same tasks in the same order; which data they walk, and which of it comes back.
- **Codecs** (`Unicode`, `Numbers`, `Escapes`, `Ring`, `Calendar`). UTF-8/16/32, integer text, escaping, the ring
  buffer, Unix and dense time.

`Basics` holds what all of them use. Code that changes state is modelled by methods, most of them of classes
(`NodeTable`, `RequestQueues`, `ChainedArena`, `LibWriter`, `ObjWriter`, `RingBuffer`); each is proved equal to a
function, and the properties are proved of the functions. `dafny verify dfyconfig.toml` checks everything.

## Where the code departs from its intent

The model does what the code does. The consequences are theorems, each with the condition under which the code does as
it should:

- A lookup's slow path reports staleness with the opposite sense of the fast path (`artifact_cache.c:181` against
  line 92). `CacheDepartures.StalenessExact`: the flag is right exactly when the lookup's read region found the value.
  `CacheDepartures.FreshFlaggedStale` is a run in which a caller is handed a fresh value as stale.
- A retry that finds its request cancelled is let go without releasing `working_count` (lines 378 and 487).
  `CacheDepartures.StuckExactly` has the keys this leaves stuck, `CacheDepartures.GetsStuck` a run that leaves one, and
  `CacheTheorems.DroppedIsForever` shows that they stay so. `cancelled` is never cleared on a linked node (line 637):
  `CacheDepartures.CancelledStays`; so, once it is set, no retry of the node is queued again:
  `LaneTheorems.CancelledRetriesDrop`.
- A surrogate pair is decoded with `|` where `+` is meant (`base_strings.c:1904`): `Unicode.Text16RoundTrip` has the
  texts that survive, exactly.
- Indexified pointers are read back by adding before multiplying (`base_meta.c:293` against line 128), in 64 bits.
  `TypedProofs.IndexInverts` has the pointers that survive, `TypedKept.ElementReturns` what that comes to for pointers
  to elements, `TypedKept.TablePointerIsLost` one that does not; `TypedCopy.DeepCopyExactly` has the data whose walk is
  copied right: that in which every pointer survives. `TypedBytes.BytesExactly` has the same for bytes, of data in one
  buffer: what is not serialized must be zero.
- Arrays ignore the task's count (line 188) and elements of a struct share element 0 as their container (line 213).
  `TypedWhole.WalkExactly` has the data that is nevertheless walked whole, `TypedKept.ArrayLosesExactly` the arrays that
  are cut; `TypedKept.NestedArraysAreCut` and `TypedKept.PairsShareCounts` are data that is not.
- The zeroing of a push wraps when alignment carries the start past the committed bytes (`base_arena.c:141-146`).
  `ArenaWild.ReserveExactly`: some run comes to it exactly when the commit size is no multiple of the greatest alignment
  in use and the first block reaches past the first odd commit. `ArenaRuns.UnalignedCommit` is such a run.
- A block for a request with an alignment above the header size is sized as if the request began right behind the
  header (`base_arena.c:121-125`). `ArenaAlign.PushFailsExactly` and `ArenaAlign.WideExactly` have the pushes that fail
  for it, `ArenaAlign.WideIsTooSmall` is one.
- A tick may be told to stop after half of the low-priority thin requests, and half of one is none (lines 454-463 of
  `artifact_cache.c`): `LaneWaits.StarvesExactly`. `LaneWaits.LoneWaits` is a run in which one request waits in vain.
- Octal is printed with a prefix that is not parsed, and padded decimals are parsed as octal: `Numbers.OctalIsLost`,
  `Numbers.DecimalRoundTrip`.
- Room for separators among leading zeros is reserved and never written (`base_strings.c:899-926`):
  `Numbers.WrittenExactly` has the numbers all of whose bytes are written, `Numbers.OneIsLeftOut` one that is not.
- The day field of a date is 16 bits wide and the seconds are taken of 32 bits (`base_core.c:506-509`):
  `Calendar.UnixExact`. One conversion counts days from 1 and the other from 0: `Calendar.UnixDenseRoundTrip`.
- Objects may have 65535 sections, but the numbers of the last two are those of debug and absolute symbols
  (`coff_obj_writer.c:47` and 94, `coff_parse.c:156-159`): `ObjectMeaning.NumberExactly` has the sections whose symbols
  are read as theirs.
- An archive's long-names flag is never set (`coff_parse.c:929`). `ArchiveProofs.LongFlagExactly`: it is right exactly
  for archives all of whose names are short; `ArchiveProofs.LongFlagIsLost` is one for which it is not. The long names
  themselves are found.
- A ring's positions are 64 bits and taken modulo its size: `Ring.WrapExactly` has the sizes for which the log is kept
  past position 2^64.

## Model

| member | source | states |
|---|---|---|
| `CacheInvariant.StepKeeps` | src/artifact_cache/artifact_cache.c:81-582 | every lock region and atomic operation, in any state of the invariant, keeps it: token counts equal to `working_count`, touch counts equal to `access_refcount`, requests that signal live nodes of their own key, values with a creator, stripes held by whom they say |
| `CacheTheorems.Reachable` | src/artifact_cache/artifact_cache.c:81-582 | the invariant holds in every state any interleaving reaches from the empty cache |
| `CacheTheorems.SingleComputation` | src/artifact_cache/artifact_cache.c:81-175 | at most one token exists for a key, be it claimed but unsubmitted, queued, gathered, being computed or dropped: no key is computed twice at once |
| `CacheTheorems.EvictionIsSafe` | src/artifact_cache/artifact_cache.c:238-271 | a node that is evicted has no open touch, no outstanding request for it or its key, no thread in its stripe, and a value that some create returned for its key |
| `CacheTheorems.CountersNeverWrap` | src/artifact_cache/artifact_cache.c:421-430 | neither unsigned counter wraps: a closed touch was counted, a completed request's node is linked with working count 1 and then 0 |
| `CacheTheorems.DroppedIsForever` | src/artifact_cache/artifact_cache.c:378-390 | after a cancelled retry is dropped, in every further run the key's node stays as it was, working count 1, and no request for the key is ever made again |
| `CacheTheorems.DroppedStep` | src/artifact_cache/artifact_cache.c:487-499 | no single step of anybody frees a dropped key |
| `CacheTheorems.LookupResult` | src/artifact_cache/artifact_cache.c:81-204 | after any run: a value handed out was created for that very key, and is fresh when fresh was asked for and time did not run out |
| `CacheLookup.ReadClaims` | src/artifact_cache/artifact_cache.c:91-105 | a lookup of a linked node of another generation leaves the key with a token, the lookup's own if there was none; a lookup of a fresh node leaves all tokens as they were |
| `CacheLookup.ReadHands` | src/artifact_cache/artifact_cache.c:91-107 | the value is handed out with a touch if there is one and it is fresh or may be stale; an unclaimed stale node is claimed; the caller is done unless it claimed or got nothing |
| `CacheLookup.StaleIsRequested` | src/artifact_cache/artifact_cache.c:91-165 | over any run: when a lookup that found its node stale and unclaimed has returned, it has queued one request for the node, of its own generation, at the end of the queue of its priority and kind |
| `CacheLookup.WriteQueues` | src/artifact_cache/artifact_cache.c:113-165 | the write region leaves the key with a linked node, a new one claimed if there was none, and queues one request exactly if the lookup has the claim or made the node |
| `CacheLookup.FlagsRise` | src/artifact_cache/artifact_cache.c:169-174 | over any run: past its push a lookup has had the loop flag raised, and has raised the high-priority flag exactly if its priority is high |
| `CacheLookup.CheckReturns` | src/artifact_cache/artifact_cache.c:178-190 | a pass ends the lookup exactly with a value, out of time or on an asynchronous thread; it has no value exactly if the node was never computed, or is stale while fresh is asked for and time is left |
| `CacheLookup.CompletionServes` | src/artifact_cache/artifact_cache.c:413-434 | a completion gives the node its request was made for the value, the generation, one completion more and no claim, and changes nothing else in the table |
| `CacheDepartures.StalenessExact` | src/artifact_cache/artifact_cache.c:81-186 | after any run between its read region and its end, a lookup's staleness flag is right exactly when the read region found the value |
| `CacheDepartures.FreshFlaggedStale` | src/artifact_cache/artifact_cache.c:178-184 | from the empty cache a run leads a caller to a value of the generation it asked for, flagged stale |
| `CacheDepartures.StuckExactly` | src/artifact_cache/artifact_cache.c:378-390 | the keys stuck by a dropped retry are exactly those whose node is claimed though nobody has the claim and no request for them is queued, gathered or computed |
| `CacheDepartures.GetsStuck` | src/artifact_cache/artifact_cache.c:378-390 | from the empty cache a run of lookup, gathering, cancellation and retry gets a key stuck |
| `CacheDepartures.CancelledStays` | src/artifact_cache/artifact_cache.c:620-640 | no step clears the mark of a cancelled node while it stays linked, and none unlinks it while it has work |
| `CacheAccount.DestroyedOnce` | src/artifact_cache/artifact_cache.c:253-263 | in every reachable state a value was destroyed at most as often as it was created, once less while a linked node holds it: nothing is destroyed twice or while it can still be handed out |
| `CacheRegions.SweepRuns` | src/artifact_cache/artifact_cache.c:243-264 | the whole pass over a slot is a run of the protocol's single evictions, one for each node taken |
| `CacheRegions.TakesExactly` | src/artifact_cache/artifact_cache.c:247-263 | the pass takes exactly the nodes of the slot that are expired, untouched and not worked on |
| `CacheRegions.NodeTable.FindNode` | src/artifact_cache/artifact_cache.c:113-122 | the scan finds the first node of the key |
| `CacheRegions.NodeTable.FindOrCreate` | src/artifact_cache/artifact_cache.c:113-143 | an existing node changes nothing; a missing one is recycled or pushed, zeroed, claimed and linked last |
| `CacheRegions.NodeTable.CompleteKey` | src/artifact_cache/artifact_cache.c:413-434 | every node of the slot with the key, and no other, gets value, generation, one claim less and one completion more |
| `CacheRegions.NodeTable.SlotHasWork` | src/artifact_cache/artifact_cache.c:238-252 | the read pass says yes exactly when the write pass would change the table |
| `CacheRegions.NodeTable.SweepSlot` | src/artifact_cache/artifact_cache.c:253-263 | the write pass unlinks exactly the idle nodes, keeps the order of the rest, and destroys their values in order |
| `CacheRegions.NodeTable.CancelSlot` | src/artifact_cache/artifact_cache.c:620-646 | exactly the expired working nodes of the slot are marked |
| `CacheRegions.RequestQueues.Gather` | src/artifact_cache/artifact_cache.c:296-323 | both queues are copied out in order and left empty |
| `CacheRegions.RequestQueues.PushLeftovers` | src/artifact_cache/artifact_cache.c:550-582 | exactly the undone suffixes go back, also when the ticket counter has overshot; the flag says whether there was any |
| `LaneTick.Refines` | src/artifact_cache/artifact_cache.c:211-595 | whatever cache region a lane runs is one the protocol allows there: it finishes, drops, queues again or defers only requests that are its to settle |
| `LaneTick.TickKeeps` | src/artifact_cache/artifact_cache.c:211-595 | every step of clients, lanes and cancellation keeps the cache's invariant, the lanes' alignment, the broadcasts and the account of gathered requests |
| `LaneTick.PoolKeeps` | src/artifact_cache/artifact_cache.c:289-582 | the requests the cache counts as gathered are always exactly those the lanes' tasks still have pending |
| `LaneTick.RestIsLeft` | src/artifact_cache/artifact_cache.c:550-576 | what is deferred is exactly what is pending |
| `LaneWakeup.StepAwake` | src/base/base_entry_point.c:190-199 | every step keeps it that a queued request has the loop flag raised, or somebody about to raise it, or lane 0 about to gather it |
| `LaneTheorems.BarriersAlign` | src/artifact_cache/artifact_cache.c:326-370 | in every reachable state all lanes have passed the same barrier, those that wait do so for the same next one, and none leaves the loop while another waits |
| `LaneTheorems.BroadcastsDeliver` | src/base/base_thread_context.c:88-117 | past the second barrier of a broadcast every lane has the source lane's value, and keeps it as long as it is used |
| `LaneTheorems.TicketsAreOwned` | src/artifact_cache/artifact_cache.c:469-471 | no two lanes hold the same thin ticket |
| `LaneTheorems.TickConserves` | src/artifact_cache/artifact_cache.c:333-585 | after the last task every gathered request has been executed or deferred, those of high priority executed, whatever was cancelled and when |
| `LaneTheorems.FatesAreFinal` | src/artifact_cache/artifact_cache.c:347-582 | what a request came to does not change until the next tick gathers: nothing is executed twice, or deferred after it was executed |
| `LaneTheorems.CompletionsAreClaimed` | src/artifact_cache/artifact_cache.c:413-434 | a lane completes only a linked node that was claimed once for the request it runs |
| `LaneTheorems.CancelledRetriesDrop` | src/artifact_cache/artifact_cache.c:374-390 | once a node is cancelled and as long as it stays linked, no lane can queue a retry for it: all it can do is drop it or complete the node after all |
| `LaneTheorems.NoLostWakeup` | src/base/base_entry_point.c:190-199 | when lane 0 decides whether to sleep, a queued request whose submitter is done has the loop flag up |
| `LaneLow.LowProgress` | src/artifact_cache/artifact_cache.c:340-463 | every tick executes at least the first wide request of its low-priority batch or, when there is none, the first of two or more thin ones, whatever is cancelled and when |
| `LaneStop.DeferredExactly` | src/artifact_cache/artifact_cache.c:355-582 | over any run: at the end of a tick the low wide requests from one on are deferred, and all thin ones with them, exactly if lane 0 read the raised flag before it began that one, which is not the first; otherwise all wide ones are executed, and all thin ones unless a lane read the flag in their second half |
| `LaneStop.StopsAtOnce` | src/artifact_cache/artifact_cache.c:355-372 | once lane 0 comes to a low wide request other than the first while the flag is up, nothing of the batch from there on is executed and no thin ticket drawn, in any run until the next gathering, and all of it is deferred |
| `LaneStop.LaneLeaves` | src/artifact_cache/artifact_cache.c:454-467 | a lane that comes to the low thin requests while the flag is up and half of them are drawn draws none until the next gathering |
| `LaneRequests.TakesInOrder` | src/artifact_cache/artifact_cache.c:286-323 | the high-priority batch becomes task 0 and the low one task 1, request by request in their order, and each is left empty |
| `LaneRequests.WideReturns` | src/artifact_cache/artifact_cache.c:376-390 | a wide request that is to be retried returns to the end of the wide queue of its own priority |
| `LaneRequests.ThinReturns` | src/artifact_cache/artifact_cache.c:485-499 | and a thin one to the end of the thin queue |
| `LaneRequests.RestReturns` | src/artifact_cache/artifact_cache.c:550-576 | exactly the requests of a task that are still pending return to its batch, in their order |
| `LaneRequests.FlagsFall` | src/base/base_entry_point.c:190-199 | before a tick lane 0 lowers the loop flag and then the one for high priority, and touches nothing else of the cache |
| `LaneRequests.LeavesExactly` | src/base/base_entry_point.c:218-229 | a lane leaves the loop exactly if the exit signal was up when lane 0 looked for it after the tick, and then none goes on |
| `LaneWaits.LoneWaits` | src/artifact_cache/artifact_cache.c:452-582 | a lone thin request of low priority can be gathered, passed over and queued again by a whole tick |
| `LaneWaits.StarvesExactly` | src/artifact_cache/artifact_cache.c:340-582 | a tick can pass over a non-empty low-priority batch entirely exactly when that is one thin request |
| `LaneProgress.NeverStuck` | src/base/base_entry_point.c:187-229 | deadlock freedom: until all lanes have left, some lane or the holder of a stripe can go on |
| `LaneBound.TicksEnd` | src/artifact_cache/artifact_cache.c:333-585 | the lanes' steps in a tick are bounded by a number fixed by the gathered batches, whatever the schedule |
| `LaneRange.Consecutive` | src/base/base_math.c:818-830 | lanes take consecutive pieces from 0 to the count, no two lengths differ by more than one |
| `LaneRange.EachIndexOnce` | src/base/base_math.c:818-830 | every index falls to exactly one lane, given in closed form |
| `LaneRange.NoSuchLane` | src/base/base_math.c:818-830 | lane numbers out of range get nothing |
| `Arena.CarveOk` | src/base/base_arena.c:141-178 | taking bytes from a sound block succeeds exactly when they fit, lands aligned on committed memory, leaves what was below alone, and zeroes what it should, in recycled blocks too |
| `Arena.ChainedOk` | src/base/base_arena.c:91-139 | chaining a recycled or a new block keeps the arena sound and makes the request fit |
| `ArenaRuns.PushOk` | src/base/base_arena.c:84-190 | a push fails only where chaining is forbidden and the block is full; otherwise its range is aligned, past the header, inside the current block and at the old end of the arena or after it |
| `ArenaRuns.PopToExactly` | src/base/base_arena.c:220-246 | a pop passes its assertion and leaves a sound arena exactly when its target is a position some chained block holds |
| `ArenaRuns.PopToOk` | src/base/base_arena.c:220-246 | a pop to such a position keeps that block and those before it, and the position is then the target, boundaries included |
| `ArenaRuns.AllocationsAreApart` | src/base/base_arena.c:84-190 | after any run from a fresh arena the live allocations lie in committed memory past the headers, and no two share an address |
| `ArenaRuns.BytesStay` | src/base/base_arena.c:84-246 | no push, pop or alignment changes a byte below the position of a block that stays chained |
| `ArenaRuns.PopRestores` | src/base/base_arena.c:211-284 | popping to a position read earlier, after any run that stayed above it, brings back exactly the blocks and position of that moment and drops exactly what came later |
| `ArenaExact.ReusesLastFreed` | src/base/base_arena.c:94-115 | a request without room in the current block takes the block freed last of those that fit, and the others keep their order |
| `ArenaExact.PopFrees` | src/base/base_arena.c:220-240 | a pop frees exactly the blocks behind the one that holds its target, in the order of the chain, in front of those freed before |
| `ArenaExact.PopsAmount` | src/base/base_arena.c:258-268 | popping an amount moves the position by it, down to the first header at most, and by nothing if there is less |
| `ArenaExact.CommitsLeast` | src/base/base_arena.c:148-160 | memory is committed up to the least multiple of the commit size that is enough, or to the end of the block |
| `ArenaExact.CarveTouches` | src/base/base_arena.c:141-178 | a push changes no byte but those of its own range, and those only to zero them |
| `ArenaExact.AlignsForward` | src/base/base_arena.c:192-198 | aligning moves the position within the current block to the next multiple |
| `ArenaRuns.UnalignedCommit` | src/base/base_arena.c:141-153 | a commit size of 5000 leads to the wrapped size |
| `ArenaWild.CommitExactly` | src/base/base_arena.c:141-153 | in some arena a run comes to a push whose zeroing wraps exactly when the commit size is no multiple of the greatest alignment in use |
| `ArenaWild.ReserveExactly` | src/base/base_arena.c:91-153 | some run of an arena of given sizes comes to such a push exactly when the commit size is no such multiple and the first block reaches past the first multiple of it, beyond the committed bytes, that is odd |
| `ArenaAlign.PushFailsExactly` | src/base/base_arena.c:84-178 | with any alignment, a push fails exactly when the current block is full and chaining is forbidden or neither a free block nor a new one takes the request |
| `ArenaAlign.SmallAlways` | src/base/base_arena.c:117-125 | with an alignment up to the header size a new block takes every request |
| `ArenaAlign.WideExactly` | src/base/base_arena.c:117-125 | with a multiple of the page above the header size, a new block takes a large request exactly when that ends on a multiple of the alignment or less than a header before one |
| `ArenaAlign.WideIsTooSmall` | src/base/base_arena.c:117-125 | 65537 bytes aligned to 8192 are not found in a new arena of 64 KiB that may chain |
| `ArenaObject.ChainedArena.constructor` | src/base/base_arena.c:10-70 | a fresh arena is sound |
| `ArenaObject.ChainedArena.TakeFree` | src/base/base_arena.c:96-115 | the first free block that fits is unlinked, the others keep their order |
| `ArenaObject.ChainedArena.Chain` | src/base/base_arena.c:91-139 | a block is chained only if needed and allowed, recycled before new |
| `ArenaObject.ChainedArena.TakeBytes` | src/base/base_arena.c:141-178 | commit, zero and take, on the current block only |
| `ArenaObject.ChainedArena.Push` | src/base/base_arena.c:84-190 | the whole push on a sound arena, which stays sound |
| `ArenaObject.ChainedArena.PopTo` | src/base/base_arena.c:220-246 | passes exactly when allowed, and then unchains, recycles and sets the position |
| `ArenaObject.ChainedArena.Position` | src/base/base_arena.c:211-217 | a position that can be popped to |
| `ArenaObject.ChainedArena.Pop` | src/base/base_arena.c:258-268 | pops an amount, nothing when it is too large |
| `ArenaObject.ChainedArena.Clear` | src/base/base_arena.c:252-256 | only the first block is left, at its header |
| `ArchiveProofs.NameDecodes` | src/coff/coff_parse.c:734-763 | the name field of a member, short or an offset into the long names shared by equal names, decodes to the name it was pushed with |
| `ArchiveProofs.MemberLands` | src/coff/coff_lib_writer.c:232-251 | the file offset computed from sizes is where the member's header is emitted |
| `ArchiveProofs.IterationRoundTrip` | src/coff/coff_parse.c:813-842 | iterating a serialized archive yields the linker members, the long names if any, and every pushed member in order with data, name and offset, each of them with the archive's time, its mode as decimal text, and user and group 0, and then stops |
| `ArchiveProofs.NextExactly` | src/coff/coff_parse.c:628-656 | on any bytes there is a member exactly where a whole header with the right end stands; its data is what there is of it, and the next one stands at an even distance behind |
| `ArchiveProofs.NoSignature` | src/coff/coff_parse.c:813-821 | without the signature nothing is iterated |
| `ArchiveProofs.ForeignName` | src/coff/coff_parse.c:734-763 | in any archive, a name without a slash is the name, and an offset leads to the text from there up to a zero, a line end or the end |
| `ArchiveProofs.PadIsZero` | src/coff/coff_lib_writer.c:204-219 | behind data of odd length stands a zero |
| `ArchiveProofs.OffsetResolves` | src/coff/coff_parse.c:791-797 | reading at the offset recorded for a member finds that member |
| `ArchiveProofs.FirstLinkerResolves` | src/coff/coff_parse.c:659-688 | every symbol of the first linker member has its own name and the offset of its own member's header |
| `ArchiveProofs.SecondLinkerResolves` | src/coff/coff_parse.c:690-731 | so it has in the second, through the member number |
| `ArchiveProofs.ParseFindsTables` | src/coff/coff_parse.c:887-945 | parsing a serialized archive finds the first linker member, the second exactly if it was written, and the long names |
| `ArchiveProofs.LongFlagExactly` | src/coff/coff_parse.c:923-938 | the long-names flag says whether there are long names exactly when all names are of at most 14 bytes |
| `ArchiveProofs.LongFlagIsLost` | src/coff/coff_parse.c:923-938 | one member with a name of 15 bytes: the name is found, the flag is not set |
| `Linking.ExportsOf` | src/coff/coff_lib_writer.c:111-125 | of a written object the archive lists exactly the names its external symbols define, be they in a section, absolute or common, in order |
| `Linking.SymbolsAre` | src/coff/coff_lib_writer.c:102-128 | after any objects were pushed, the library lists a name for a member exactly when that member's object defines it |
| `Linking.EntriesLead` | src/coff/coff_lib_writer.c:345-361 | in the archive of any written objects every entry of the first linker member names a symbol some object defines, and its offset is that of a member whose data is that object, byte for byte |
| `Linking.DefinitionsHaveEntries` | src/coff/coff_lib_writer.c:111-125 | and every name an object defines has an entry with that object's member |
| `ArchiveWriter.LibWriter.PushObj` | src/coff/coff_lib_writer.c:102-128 | the member goes last; if it is an object, the loop over its symbols lists what it exports, behind all other symbols and with its index |
| `ArchiveWriter.LibWriter.LayOutMembers` | src/coff/coff_lib_writer.c:173-209 | headers, data, padding, long names and offsets of all members |
| `ArchiveWriter.LibWriter.NameTable` | src/coff/coff_lib_writer.c:333-343 | the names one after the other, each with its zero |
| `ArchiveWriter.LibWriter.FirstLinker` | src/coff/coff_lib_writer.c:345-361 | the data of the first linker member, big endian |
| `ArchiveWriter.LibWriter.SecondLinker` | src/coff/coff_lib_writer.c:278-307 | the data of the second |
| `ArchiveWriter.LibWriter.Serialize` | src/coff/coff_lib_writer.c:164-383 | the whole archive for any library within the checked casts, as the function whose bytes the round trips read |
| `ArchiveWriter.Members` | src/coff/coff_parse.c:823-842 | the iterator's loop, on any bytes |
| `ObjectProofs.Accepted` | src/coff/coff_parse.c:18-122 | `coff_is_obj` accepts what the writer wrote, and the header's counts and offsets are those laid out |
| `ObjectProofs.SectionRoundTrip` | src/coff/coff.c:54-64 | every section header parses to the name, long or short, the data, the flags and the relocation table of its section |
| `ObjectProofs.SymbolRoundTrip` | src/coff/coff_parse.c:150-180 | the record at a symbol's index is that symbol's own, whatever auxiliary records precede it: name, value, type, storage, and as number its section's, counted from one, all ones if it is absolute, or zero |
| `ObjectProofs.SymbolsRoundTrip` | src/coff/coff_lib_writer.c:111-125 | walking the table by auxiliary counts visits every symbol once, in order, and reads each so |
| `ObjectMeaning.NumberLeadsToSection` | src/coff/coff_obj_writer.c:88-100 | the number read back for a symbol in a section leads to the section it was pushed in: same name, flags and data |
| `ObjectMeaning.NumberExactly` | src/coff/coff_parse.c:150-165 | it is one more than the section's place exactly below section 65534; the symbols of the last two possible sections read as debug and absolute ones |
| `ObjectMeaning.AcceptedExactly` | src/coff/coff_parse.c:18-122 | written objects are accepted exactly if their machine is one of the 25 listed |
| `ObjectMeaning.SectionsInside` | src/coff/coff_parse.c:40-80 | of any file that is accepted, every section that is initialized has all its data inside the file, behind the headers |
| `ObjectMeaning.Refused` | src/coff/coff_parse.c:48-110 | a file with initialized data or symbols that reach outside is refused, and so is a big object |
| `ObjectMeaning.OverflowCounts` | src/coff/coff_parse.c:342-358 | a full relocation count with the overflow flag is read from the first entry |
| `ObjectMeaning.FileHeaderBytes` | src/coff/coff_obj_writer.c:226-249 | the fields of the file header; the symbol table's offset is zero exactly without symbols and long names |
| `ObjectMeaning.SectionHeaderZeros` | src/coff/coff_obj_writer.c:157-224 | the fields of a section header that have no meaning in an object are zero, and so are the offsets of data and relocations that are not there |
| `ObjectMeaning.StringTableSize` | src/coff/coff_obj_writer.c:236-241 | the size at the start of the string table is that of the rest of the file |
| `ObjectMeaning.BlankBehindFirst` | src/coff/coff_obj_writer.c:133-138 | behind its first auxiliary record a symbol's records are zero |
| `ObjectMeaning.DefinitionBytes` | src/coff/coff_obj_writer.c:112-131 | all 18 bytes of a section symbol's record, its relocation count among them |
| `ObjectProofs.RelocsResolve` | src/coff/coff_parse.c:342-358 | every relocation comes back with its offset and type, and its index is that of the symbol it was pushed with |
| `ObjectProofs.WeakResolves` | src/coff/coff_parse.c:316-330 | a weak symbol's default is found as the symbol it was set to, or is all ones |
| `ObjectProofs.DefinitionResolves` | src/coff/coff_parse.c:295-313 | a section's own symbol has the section's size, its selection and its associate's number |
| `ObjectWriter.ObjWriter.AssignIndices` | src/coff/coff_obj_writer.c:54-63 | record indices that skip auxiliary records |
| `ObjectWriter.ObjWriter.EmitSymbols` | src/coff/coff_obj_writer.c:65-142 | the symbol table and the long names |
| `ObjectWriter.ObjWriter.EmitRelocs` | src/coff/coff_obj_writer.c:194-209 | relocations by record index |
| `ObjectWriter.ObjWriter.EmitSections` | src/coff/coff_obj_writer.c:157-224 | section headers with the offsets at which data and relocations are emitted |
| `ObjectWriter.ObjWriter.Serialize` | src/coff/coff_obj_writer.c:19-249 | the whole object |
| `ObjectWriter.Symbols` | src/coff/coff_lib_writer.c:116-125 | the loop over the symbol table, on any bytes |
| `ObjectWide.WidenSymbols` | src/coff/coff_parse.c:182-225 | the loop that widens a table: records at which the walk stops get 32-bit section numbers, all others are copied with two zeros, what lies past the end of the data is left as it was |
| `ObjectWide.WideReads` | src/coff/coff_parse.c:136-225 | in every object that is accepted, walking the widened table gives what walking the table in the file gives |
| `ObjectWide.AuxesKept` | src/coff/coff_parse.c:210-219 | the records behind a symbol are its auxiliary records, byte for byte |
| `ObjectWide.WideRoundTrip` | src/coff/coff_parse.c:182-225 | for a written object that is every symbol as it was pushed, in order |
| `TypedProofs.CountsAgree` | src/base/base_meta.c:322-346 | when the deserializer follows a counted pointer, the count has been written already and is the source's |
| `TypedCounts.FollowsWithCount` | src/base/base_meta.c:158-177 | if the bytes of a pointer's count are those of a number, of any size that holds it, the serializer goes on with as many elements |
| `TypedCounts.MakesRoomForCount` | src/base/base_meta.c:322-353 | and so does the deserializer, with room for one more, whose address it writes |
| `TypedCounts.CopiesAllItems` | src/base/base_meta.c:77-421 | a struct of a count, a pointer to as many enum values and a member that is not serialized: what is written is the count and all n items, and the copy is the count, the address of its own buffer, zeros, all n items and one of zeros |
| `TypedCounts.ValueIsSum` | src/base/base_meta.c:168-171 | a count of 8 bytes is their sum by powers of 256, lowest first |
| `TypedCounts.ZerosAddNothing` | src/base/base_meta.c:167-171 | a shorter count is one of 8 bytes with zeros behind |
| `TypedCounts.WrittenAsIndex` | src/base/base_meta.c:109-130 | the first entry for what is pointed to decides: with an index base, element x behind it is written as x |
| `TypedCounts.WrittenAsOffset` | src/base/base_meta.c:132-139 | with an offset base alone, as its distance |
| `TypedProofs.Round` | src/base/base_meta.c:238-411 | one round of both loops keeps them in step: same tasks, disjoint destinations, everything written intact |
| `TypedProofs.Lockstep` | src/base/base_meta.c:77-411 | after any number of rounds, on any data that begins with what the serializer wrote in them, the deserializer has read exactly that and has the matching tasks left |
| `TypedProofs.OffsetInverts` | src/base/base_meta.c:298-306 | offsetified pointers come back bit by bit |
| `TypedProofs.DeepCopy` | src/base/base_meta.c:413-421 | when the serializer ends, the deserializer ends with it, has consumed exactly all bytes, and where every index that was written returns what was walked is equal in the copy, to any depth |
| `TypedCopy.DeepCopyExactly` | src/base/base_meta.c:413-421 | what was walked is equal in the copy, to every depth, exactly when every index that was written returns |
| `TypedWhole.WalkExactly` | src/base/base_meta.c:184-217 | the loops walk all of the data exactly when interpreted pointers and non-empty arrays come one at a time and counts found in element 0 are those of the pointers' own elements |
| `TypedKept.WholeCopy` | src/base/base_meta.c:413-421 | in that case, and if every index returns, all of the data, counts looked up where they belong, is equal in the copy |
| `TypedKept.ArrayLosesExactly` | src/base/base_meta.c:184-193 | an array pushes a run of its own length whatever its count: bytes are left out exactly when there are several of a non-empty one, or none |
| `TypedKept.NestedArraysAreCut` | src/base/base_meta.c:184-193 | two arrays of two bytes come back as the first and two zeros |
| `TypedKept.CutZeros` | src/base/base_meta.c:184-193 | which is what they were exactly when the lost bytes were zeros |
| `TypedBytes.BytesExactly` | src/base/base_meta.c:413-421 | all bytes of data in one buffer are equal in the copy exactly when every index returns and the bytes that are not serialized, whether skipped, padding or left out by the walk, are zero |
| `TypedKept.PairsShareCounts` | src/base/base_meta.c:196-217 | of two structs with a count and a pointer each, the second pointer is followed with the first count: the walk is whole exactly when the two agree |
| `TypedKept.ElementReturns` | src/base/base_meta.c:288-297 | the index of a pointer to an element returns exactly when the base times one less than the element's size is a multiple of 2^64 |
| `TypedKept.TablePointerIsLost` | src/base/base_meta.c:288-297 | a pointer to a table of 16-byte elements at address 4096 is not written back |
| `TypedProofs.UnwrittenIsZero` | src/base/base_meta.c:238-411 | on any bytes: what no task writes, members that are not serialized among it, is zero |
| `TypedProofs.IndexInverts` | src/base/base_meta.c:288-297 | what is written back for an indexified pointer to something with a size is what was there exactly when base times one less than the size, less what the division dropped, is a multiple of 2^64 |
| `TypedFinite.EndsExactly` | src/base/base_meta.c:77-236 | the serializer ends exactly on finite data: data without a cycle of followed pointers |
| `TypedFinite.FiniteEnds` | src/base/base_meta.c:77-236 | after as many rounds as the data has tasks its list is at the end, none left and none too many |
| `TypedLoops.SerializedFromTypedData` | src/base/base_meta.c:77-236 | on finite data the loop ends, with the bytes of as many rounds as the data has tasks |
| `TypedLoops.SerializeOne` | src/base/base_meta.c:98-232 | one task, by its kind |
| `TypedLoops.DeserializedFromTypedData` | src/base/base_meta.c:238-411 | so for the deserializer, on any bytes |
| `TypedLoops.DeserializeOne` | src/base/base_meta.c:261-403 | one task, by its kind |
| `TypedLoops.PushElements` | src/base/base_meta.c:196-217 | the members of every element that are serialized, in order |
| `TypedLoops.DeepCopyFromTypedData` | src/base/base_meta.c:413-421 | on finite data the copy holds what was walked, to every depth, exactly when every index returns, and then all of the data wherever the walk is |
| `Unicode.Utf8RoundTrip` | src/base/base_strings.c:1835-1945 | an encoded code point is read back with its length, whatever follows, exactly when it is at most U+10FFFF |
| `Unicode.Text8RoundTrip` | src/base/base_strings.c:2021-2066 | a UTF-32 text comes back from UTF-8 exactly when all its code points are at most U+10FFFF |
| `Unicode.Bytes8RoundTrip` | src/base/base_strings.c:1835-1945 | a byte string comes back from being decoded and encoded exactly when it is strict UTF-8, encoded surrogates allowed: no overlong form, no stray byte, nothing above U+10FFFF |
| `Unicode.PairIsOr` | src/base/base_strings.c:1904 | the value of a pair as the decoder computes it is the bitwise or of the two halves |
| `Unicode.PairRoundTrip` | src/base/base_strings.c:1896-1967 | a supplementary code point comes back from its pair in odd planes, and one plane lower in even ones |
| `Unicode.Text16RoundTrip` | src/base/base_strings.c:1896-1967 | a text comes back from UTF-16 exactly when its code points are in plane 0 or an odd plane and no high surrogate stands before a low one |
| `Unicode.AcrossExactly` | src/base/base_strings.c:1973-2019 | of all byte strings, UTF-8 to UTF-16 and back is the identity exactly on strict ones whose text survives UTF-16 |
| `Unicode.BackExactly` | src/base/base_strings.c:1973-2019 | of all 16-bit texts, UTF-16 to UTF-8 and back is the identity exactly when bit 6 of the high half of every pair is clear |
| `Unicode.QuestionExactly` | src/base/base_strings.c:1835-1967 | exactly where no character begins, one byte gives one question mark in UTF-8 and in UTF-16, and the text goes on behind it |
| `Unicode.TooLarge` | src/base/base_strings.c:1940-1944 | what is above U+10FFFF is written as a question mark |
| `Unicode.Str8From32` | src/base/base_strings.c:2021-2041 | the conversion, within the capacity it computes |
| `Unicode.Str32From8` | src/base/base_strings.c:2043-2066 | the conversion of any bytes, within its capacity |
| `Unicode.Str16From8` | src/base/base_strings.c:1997-2019 | the conversion of any bytes, within its capacity |
| `Unicode.Str8From16` | src/base/base_strings.c:1973-1995 | the conversion of any units, within its capacity |
| `Numbers.FillDigits` | src/base/base_strings.c:902-922 | the loop from the right puts the digits in groups at the end of the buffer and never runs out of it |
| `Numbers.Str8FromU64` | src/base/base_strings.c:845-936 | the loops give prefix, zeros, the unwritten bytes as they were in memory, and the grouped digits, for every number, radix, padding and separator |
| `Numbers.WrittenExactly` | src/base/base_strings.c:899-926 | the text is independent of what was in memory exactly when no separator would fall among the leading zeros; then it is the text that is meant |
| `Numbers.OneIsLeftOut` | src/base/base_strings.c:899-926 | 1 in four digits with commas is three zeros, a byte of whatever was there, and the 1 |
| `Numbers.GroupedSize` | src/base/base_strings.c:887-898 | the computed number of separators is the number written |
| `Numbers.GroupsHoldDigits` | src/base/base_strings.c:902-922 | without the separators the digits are left |
| `Numbers.PrintedPlaces` | src/base/base_strings.c:850-922 | place by place: 0x, 0o or 0b or no prefix, then lower-case digits with a separator behind every three decimal or four other ones, counted from the right |
| `Numbers.PrintedWidth` | src/base/base_strings.c:886 | zeros fill the text to the width that is asked for and no further |
| `Numbers.TryU64FromStr8` | src/base/base_strings.c:674-712 | the C rules for radix prefixes |
| `Numbers.CaseDoesNotMatter` | src/base/base_strings.c:674-712 | the letters of digits and prefixes may be of either case |
| `Numbers.OnlyDigits` | src/base/base_strings.c:596-617 | any other character makes the text no number, and so does a prefix alone |
| `Numbers.Str8IsInteger` | src/base/base_strings.c:596-617 | all characters are digits of the radix |
| `Numbers.U64FromStr8` | src/base/base_strings.c:635-648 | the positional value of any characters, by their digit values, modulo 2^64 |
| `Numbers.PrefixedRoundTrip` | src/base/base_strings.c:674-712 | in radix 2 and 16 every 64-bit number comes back, with any padding |
| `Numbers.DecimalRoundTrip` | src/base/base_strings.c:674-712 | in radix 10 it comes back exactly when it is not padded or is below 8 |
| `Numbers.OctalIsLost` | src/base/base_strings.c:855-856 | in radix 8 it never comes back |
| `Escapes.EscapeRoundTrip` | src/base/base_strings.c:2380-2468 | unescaping the escaped form of any text gives the text without its zeros, whatever lies behind it in memory |
| `Escapes.EscapeInverts` | src/base/base_strings.c:2380-2468 | so it gives the text back exactly when that has no zero |
| `Escapes.EscapedIsPaired` | src/base/base_strings.c:2380-2420 | escaped text has no unpaired backslash at its end |
| `Escapes.EscapedIsClean` | src/base/base_strings.c:2380-2420 | escaped text has no zero, no bell, no cursor movement and no bare quote |
| `Escapes.PastMatters` | src/base/base_strings.c:2422-2468 | reading a text back looks at the byte past its end exactly when its last backslash is unpaired |
| `Escapes.EscapesMean` | src/base/base_strings.c:2440-2462 | twelve escapes, those the printer never writes among them, mean their byte, any other zero, and a carriage return nothing |
| `Escapes.EscapedFromRaw` | src/base/base_strings.c:2380-2420 | the splitting loop |
| `Escapes.RawFromEscaped` | src/base/base_strings.c:2422-2468 | the joining loop, on any text, a backslash at the end included |
| `Ring.RingBuffer.Write` | src/base/base_core.c:557-572 | the ring after the two copies at any position; a write where the log ends, modulo the size, keeps the last ring's worth of the log |
| `Ring.RingBuffer.Read` | src/base/base_core.c:574-588 | any read inside the last ring's worth returns the log's bytes, whatever multiple of the size its position is off |
| `Ring.StaysOrNew` | src/base/base_core.c:557-572 | each byte still in reach after a write is an old one untouched or a new one in its place |
| `Ring.WrapExactly` | src/base/base_core.c:557-572 | writes at 64-bit positions keep the log of a ring, however long it grows, exactly when the ring's size divides 2^64 |
| `Calendar.DateTimeFromUnixTime` | src/base/base_core.c:501-553 | the loop ends for every time with the date whose day number the day field held |
| `Calendar.UnixExact` | src/base/base_core.c:501-553 | date and time of day are those of the Gregorian calendar exactly for times of 32 bits |
| `Calendar.OneDate` | src/base/base_core.c:510-549 | a day number belongs to one date only |
| `Calendar.LaterDay` | src/base/base_core.c:510-549 | later dates have greater day numbers |
| `Calendar.DenseRoundTrip` | src/base/base_core.c:440-477 | a date comes back from dense time exactly when its fields are in range and 64 bits suffice |
| `Calendar.DenseIsOnto` | src/base/base_core.c:459-477 | every 64-bit number is the dense time of one date |
| `Calendar.DenseOrders` | src/base/base_core.c:440-457 | dense time has the order of the dates |
| `Calendar.UnixDenseOrder` | src/base/base_core.c:440-553 | later times of 32 bits have greater dense times, through their dates |
| `Calendar.UnixDenseRoundTrip` | src/base/base_core.c:440-553 | the date of a time of 32 bits comes back from its dense time exactly when its day is not the 31st |

## Left out

- Time: whether a node has expired, when a wait ends and whether it ran out of time are arbitrary choices of the steps.
- Create functions: whether they ask for a retry, and what they return, is arbitrary; `shared_ctx`, wide creates that use the lanes themselves and nested lookups are not part of the model.
- Lock granularity: an eviction or cancellation pass is one step for each node, which is finer than the code, so every behaviour of the code is one of the model; `CacheRegions.SweepRuns` connects the two.
- The semaphore around cancellation scans: the model lets cancellation happen at any time.
- The table of caches itself, its stripes and its creation on first use: a cache is named by its create function, and its slots and stripes are arbitrary functions of the key.
- Superseded values: a completion overwrites the value without destroying it, as the code does.
- `access_refcount` and `completion_count` are unbounded when they grow; that they never go below zero is proved.
- The condition variable of the loop: a broadcast that comes between the test of the flag and the wait delays the tick by at most the wait's second; the flag itself is never lost.
- Requests queued again by a retry do not raise the high-priority flag, and neither does the model.
- The other layers' ticks that run between the same barriers, and the barrier's own implementation.
- LaneProgress.NeverStuck: is deadlock freedom with the bound of a tick beside it; that a schedule is fair to clients is not assumed, and nothing is said of how long a client waits.
- Arena: blocks are values in a sequence instead of linked headers, sizes do not wrap at 64 bits, backing buffers, large pages, the allocator's abort and address sanitizing are left out; the invariant and the runs have alignments that are powers of two up to the header size, single pushes any.
- Archives: both sorts are arbitrary permutations of the symbols, the table of long names is a map, the casts and assertions of the writer are preconditions, and thin archives and import members (section 8) are left out; a number in a member's header that does not fit 32 bits, at which the parser stops the program, is read as it is.
- Objects: big objects are recognised and not parsed, resource objects, directives and addresses of relocations by machine are left out, and the data of uninitialized sections is given as bytes.
- Typed data: types refer to each other by number, destinations lie one after the other in one address space, pointers are 64 bits, and rebasing is left out; where elements have no size the code divides by zero and the model by one. The exact condition for equal bytes is for data in one buffer; across buffers the condition is sufficient.
- TypedLoops.SerializedFromTypedData: finite data is required, as on a cycle of followed pointers the loop does not end.
- TypedLoops.DeserializedFromTypedData: that the loop ends on the bytes given is required; on those of a serializer that ended it does.
- Signed numbers, and memory-size and time text, which are built on the unsigned printer.
- Logs, disassembly, command lines, scratch arenas, intrusive list macros, paths, needle search and string lists: they would add easy members, or operations whose effects the modelled ones already have.
