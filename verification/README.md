# A Dafny model of rem6's caches, miss queues, boot images and lane scheduler

This project models the parts of the rem6 system simulator whose correctness is not visible from
any one function, and proves what they promise together. Each part is modelled twice. Its logic is
a set of functions on values, about which the laws are proved for every input, every run or every
reachable state. Where the program updates an object or runs a loop, a class or a method with the
same fields and loops is proved to compute those functions.

| file | what it models | main results |
|---|---|---|
| `Memory.dfy` | requests, responses, masked stores, atomic arithmetic, ordering | what each atomic operation computes, as numbers; when two requests are ordered |
| `Backing.dfy` | the coherence backing store of one line | reads, writes and atomics byte by byte; store-conditional succeeds exactly when the history says so |
| `Msi.dfy` | the MSI line controller | a controller over a backing store answers like the bare store, for exactly the requests named; over every run a line is held only with the permission it asked for |
| `Mshr.dfy` | the miss queue (MSHR) | run invariant with the exact condition on restored snapshots, conservation of requests, the demand reserve, which snapshots restore |
| `Topological.dfy`, `ReadyOrder.dfy` | the ready list of the miss queue | the list exists exactly when the ready entries have no ordering cycle, is then the stepwise least order, and names the handles that the run's own steps leave ready |
| `Bank.dfy`, `BankRuns.dfy` | the MSI bank with a miss queue | entries, pending fills and transient lines correspond, and exactly which steps break that; every other run refines flat memory, each accepted request answered once and in order, and every request sent downstream answered by the fill it waits for |
| `Skewing.dfy`, `Indexing.dfy` | set indexing, skewed and plain | skew is a bijection for every width and way; which skewing functions differ; tag and location give back the line |
| `CompressedTags.dfy`, `TagGeometry.dfy` | superblock tags with compression | every reachable state passes the validator; lookup is set membership; lines of one superblock share an entry up to its factor; capacity bound |
| `SecondChance.dfy`, `SecondChanceTags.dfy`, `SecondChanceQueue.dfy` | second-chance victim selection across sets, tags under it, and the queue that its ticks and marks stand for | termination, exactly when the marks are respected, and refinement of the textbook queue over every run |
| `Accelerator.dfy` | the lane reservation of the accelerator engine | refinement of a first-come-first-served queue with several servers, exactly when a command is accepted, makespan bound |
| `Dueling.dfy` | the dueling monitor | over every run the selector is the walk of the votes and the winner the side it was on last; when a constituency is fair |
| `Image.dfy`, `Elf.dfy` | boot images and the ELF loader | an accepted file loads to exactly its `PT_LOAD` image; exact acceptance condition; the layout is the ABI's |
| `ElfFiles.dfy` | a writer of ELF executables, as the partner of the parser | writing and parsing round-trips for both classes and byte orders |
| `Common.dfy`, `Totals.dfy` | results, machine bounds, multiset totals | shared helpers |

Machine integers are written out where they matter: saturating counters, checked sums, wrapping
header offsets, the end of the address space.

## Properties that hold only under a condition

The code does not do everything a reader would expect of it. In these places the model follows the
code, and the exact condition is proved.

- `ready_handles` panics when every pending entry is blocked. That happens exactly when the ready
  entries have an ordering cycle, and one entry with two merged targets is enough for a cycle:
  two reads of one line, the first with a barrier after it (`ReadyOrder.FencedPairPanics`).
- Restoring a miss queue's own snapshot is refused exactly when a live entry or target carries a
  saturated counter (`Mshr.OwnSnapshotAccepted`).
- Loading a boot image fails exactly when a segment reaches the last line of the address space,
  because the line store cannot form that line's range (`Image.LoadingCompletes`,
  `Image.TopLineLost`). Below that line the load is exact even when it fails.
- A constituency of the dueling monitor gives both teams their samples exactly when twice the team
  size fits the constituency, and the configuration check admits sizes that do not
  (`Dueling.ConstituencyIsFair`, `Dueling.UnfairConfigurationAccepted`).
- The MSI controller and a bare store agree on a request for its line exactly when the operation is
  not an instruction fetch, a failed upgrade of a store-conditional or a writeback, and no fill of
  the last line of the address space is needed: that line's fill request overflows after the state
  has changed (`Msi.AgreementIsExact`, `Msi.CacheIsTransparent`, `Msi.UnfillableLineIsLost`).
- Restore takes over snapshots that no run of the queue produces. It keeps the queue invariant exactly
  when the snapshot has what the shape check leaves out: entries with the order of their first
  target, rising target orders, and one shareable entry per line (`Mshr.RestoreKeepsInvIff`,
  `Mshr.TwoShareableAccepted`, `Mshr.RunKeepsInvIff`).
- In the bank the same overflow leaves a line waiting for ever. A request keeps entries, fills and
  lines in correspondence exactly when it does not fetch the last line and does not wait on a miss
  whose entry it may not join (`Bank.RequestStepInv`, `Bank.LastLineRead`).
- A fill keeps the correspondence exactly when it leaves the line with data and the request that
  missed wants an answer. A read prefetch asks for none, so its own miss is never resolved, while a
  prefetch that joins another's miss is (`Bank.FillStepInv`, `Bank.PrefetchMiss`).
- The coalescing test of the bank and the merging test of the queue disagree on strict order. When a
  read or the miss it would wait on is strictly ordered, the read gets an entry that no fill will
  complete, unless the queue is full (`Bank.CoalescingKeepsInvIff`, `Bank.StrictMissThenRead`).
- A line that could serve a request refuses it exactly when the request is a prefetch that asks for no
  answer, or a load-locked of a shared line while the queue is full (`Bank.HitRefusedIff`).
- The second-chance choice respects the marks exactly when no unmarked candidate is overtaken by one
  inserted anew. The snapshot validator does not check the ticks, and a counter behind them lets a
  touched candidate be chosen (`SecondChance.FirstUntouchedIff`, `SecondChance.StaleCounter`). Over
  runs the ticks stay behind the counter exactly when those of the restored snapshots do
  (`SecondChanceTags.TickedIffHonest`).
- With more than four sets the eight skewing functions all differ. With four sets they are only four:
  each agrees everywhere with its mirror image, ways 0 and 7, 1 and 6, 2 and 5, 3 and 4
  (`Skewing.DifferIff`, `Skewing.FourSetsFold`).
- The ticks and marks of second chance stand for one queue of places at every point of a run exactly
  when those of every restored snapshot do (`SecondChanceQueue.RunIsQueueIff`).
- Entries that prefetches opened leave the demand reserve free at every point of a run exactly when
  they do in every restored snapshot (`Mshr.RunKeepsReserveIff`).
- An MSI line has data exactly when it is held, as long as every response that resolves a miss
  leaves it with data (`Msi.RunHeldIff`).
- The first-come-first-served law of the lanes needs no assumption on the order of accept ticks.

## Model

| member | source | states |
|---|---|---|
| Memory.AtomicDataComputes | crates/rem6-memory/src/request.rs:1274-1428 | an atomic request is refused exactly for the widths it does not support, and otherwise stores what its operation computes from the little-endian numbers: sums modulo the width, extremes in two's complement or unsigned, bits byte by byte |
| Memory.LittlePlaceValue | crates/rem6-memory/src/request.rs:1274-1428 | the last byte of a number weighs most |
| Memory.GranuleIs | crates/rem6-memory/src/request.rs:1441-1443 | the reserved granule is the aligned 16 bytes around the first byte accessed |
| Memory.OverlapIs | crates/rem6-memory/src/request.rs:1445-1455 | an access overlaps a granule if and only if they have an address in common |
| Memory.OrderedIff | crates/rem6-memory/src/ordering.rs:4-67 | one request is ordered before another of its agent by strictness on either side, by a barrier after it that covers the later operation or a barrier before the other that covers its own, and by nothing else |
| Backing.Respond | crates/rem6-coherence/src/backing.rs:59-117 | a request never changes the line's address or size and leaves a well-formed store, whatever it answers |
| Backing.ReadsMemory | crates/rem6-coherence/src/backing.rs:59-117 | a read answers with the bytes memory holds at its addresses and changes none |
| Backing.WritesMemory | crates/rem6-coherence/src/backing.rs:59-171 | a write, and a store-conditional that holds its reservation, puts its unmasked bytes at their addresses and changes nothing else; a store-conditional without one fails and changes nothing |
| Backing.AtomicMemory | crates/rem6-coherence/src/backing.rs:59-171 | an atomic access answers with the bytes that were there and leaves what its operation computes from them |
| Backing.OthersLeaveMemory | crates/rem6-coherence/src/backing.rs:59-117 | a writeback of the whole line replaces it and is told to retry; every other request leaves memory alone |
| Backing.ReadAfterWrite | crates/rem6-coherence/src/backing.rs:59-171 | a read after a write sees the written bytes where the mask let them through and the earlier ones elsewhere |
| Backing.EventEffect | crates/rem6-coherence/src/backing.rs:46-145 | one event gives an agent a reservation exactly when it locks it now, or the agent held it and the event does not disturb the granule |
| Backing.ReservationsMatchHistory | crates/rem6-coherence/src/backing.rs:131-145 | over every history the reservation map is exactly the most recent undisturbed load-locked of each agent |
| Backing.StoreConditionalSucceedsIffReserved | crates/rem6-coherence/src/backing.rs:59-117 | a store-conditional succeeds if and only if the history left that agent's reservation of the granule standing |
| Backing.LineBackingStore.constructor | crates/rem6-coherence/src/backing.rs:17-36 | the new store has the given line and no reservation |
| Backing.LineBackingStore.ReplaceLine | crates/rem6-coherence/src/backing.rs:46-57 | the object's state and answer are those of the replacement function |
| Backing.LineBackingStore.ApplyWriteData | crates/rem6-coherence/src/backing.rs:157-171 | the byte loop stores exactly the unmasked payload bytes at their offset |
| Backing.LineBackingStore.RespondTo | crates/rem6-coherence/src/backing.rs:59-117 | the object's state and answer are those of the response function |
| Msi.ServeAgrees | crates/rem6-cache/src/msi.rs:570-625 | completing a request on a present line answers like the backing store and keeps the two in agreement |
| Msi.AccessAgrees | crates/rem6-cache/src/msi.rs:389-480 | hit, miss or upgrade, one access through the controller answers like the bare store and keeps the two in agreement, unless it must fill a line that cannot be asked for |
| Msi.UnfillableLineIsLost | crates/rem6-cache/src/msi.rs:389-568 | on the last line of the address space a miss fails after the state has changed; from then on every request is refused as busy and every fill as unexpected |
| Msi.ServeDiffers | crates/rem6-cache/src/msi.rs:570-625 | for the five other operations completing on a present line does not answer like the backing store |
| Msi.AgreementIsExact | crates/rem6-cache/src/msi.rs:389-625 | controller and bare store give the same answer if and only if the request is for another line, or its operation is transparent and it needs no fill of a line that cannot be asked for |
| Msi.RunsAgreeIff | crates/rem6-cache/src/msi.rs:389-480 | from any agreeing pair, the answers over a whole sequence agree if and only if every request of it is served, and the two then still agree |
| Msi.CacheIsTransparent | crates/rem6-cache/src/msi.rs:389-480 | for every request sequence the answers of a fresh controller equal those of a bare store if and only if every request is served, which below the last line means transparent; line data and reservations then agree too |
| Msi.AsksFor | crates/rem6-cache/src/msi.rs:389-568 | an absent line is asked to be shared for exactly the four kinds of read and to be owned for everything else; a shared line serves the four kinds and asks for an upgrade for the rest; an owned line serves all |
| Msi.PermissionsAskedFor | crates/rem6-cache/src/msi.rs:389-568 | over every run of requests and responses a line is shared only after a shared read was sent last, and writable only after a unique read or an upgrade; what is sent is the controller's own, for its line, under rising sequence numbers |
| Msi.MissKeepsOrder | crates/rem6-cache/src/msi.rs:538-568 | what a miss sends is ordered with other requests as the request itself, asks for the whole line or for one byte of a shared one, and wants an answer |
| Msi.WritesNeedOwnership | crates/rem6-cache/src/msi.rs:389-480 | a hit that changes the line finds it owned |
| Msi.StrayResponse | crates/rem6-cache/src/msi.rs:447-480 | a response that answers no miss of the line is refused and changes nothing |
| Msi.FillDropsReservations | crates/rem6-cache/src/msi.rs:447-480 | a fill that brings the line leaves no reservation but that of the load-locked it serves |
| Msi.RunFollowsProtocol | crates/rem6-cache/src/msi.rs:447-480 | in no run does a response meet a state that its miss does not lead out of |
| Msi.RunHeldIff | crates/rem6-cache/src/msi.rs:389-480 | at every point of a run the line has data exactly when it is held, if and only if every response that resolves a miss leaves the line with data |
| Msi.UpgradeIffData | crates/rem6-cache/src/msi.rs:538-568 | then an upgrade is sent exactly when the line has data already |
| Msi.SnoopsTake | crates/rem6-protocol-msi/src/lib.rs:332-393 | a snooped write takes a settled line away and a snooped read leaves it shared at most |
| Msi.MsiCacheController.ApplyStore | crates/rem6-cache/src/msi.rs:643-672 | the masked store loop changes exactly the unmasked bytes |
| Msi.MsiCacheController.ReadBytes | crates/rem6-cache/src/msi.rs:674-695 | reads the requested slice, or reports missing data |
| Msi.MsiCacheController.CompleteCpuRequest | crates/rem6-cache/src/msi.rs:570-625 | object state and answer equal the completion function |
| Msi.MsiCacheController.Downstream | crates/rem6-cache/src/msi.rs:538-568 | builds the fill or upgrade request, or reports the overflow of the last line, and uses up a sequence number either way |
| Msi.MsiCacheController.AcceptRequest | crates/rem6-cache/src/msi.rs:389-445 | object state and outcome equal the acceptance function, the failed miss included |
| Msi.MsiCacheController.AcceptFillResponse | crates/rem6-cache/src/msi.rs:447-480 | object state and outcome equal the fill function |
| Mshr.AllocateKeepsInv | crates/rem6-cache/src/mshr.rs:927-971 | merging or allocating keeps the queue within its bounds, and keeps targets in order and at most one shareable entry per line where that held |
| Mshr.CompleteKeepsInv | crates/rem6-cache/src/mshr.rs:1028-1035 | so does completing an entry |
| Mshr.RestoreKeepsInvIff | crates/rem6-cache/src/mshr.rs:1046-1118 | a restore of any snapshot keeps the queue within its bounds; it keeps the whole invariant if and only if it refuses, or the snapshot has what the shape check leaves out: entry orders, rising target orders and one shareable entry per line |
| Mshr.TwoShareableAccepted | crates/rem6-cache/src/mshr.rs:1060-1118 | a snapshot with two entries that requests for one line could join is taken over, and breaks the invariant |
| Mshr.RunKeepsShape | crates/rem6-cache/src/mshr.rs:927-1138 | every run of allocations, marks, delays, completions and restores of any snapshot keeps entries within their bounds, handles distinct, and handles and orders behind their counters |
| Mshr.RunKeepsInvIff | crates/rem6-cache/src/mshr.rs:927-1138 | the queue invariant holds at every point of a run if and only if every snapshot the run takes over has what the shape check leaves out |
| Mshr.RunKeepsOrdersIff | crates/rem6-cache/src/mshr.rs:927-1138 | at every point of a run no two targets waiting on different entries carry the same order, short of the counter's end, if and only if that holds of every snapshot the run takes over |
| Mshr.AllocateConserves | crates/rem6-cache/src/mshr.rs:927-971 | an accepted request joins the live ones exactly once; a refusal changes nothing |
| Mshr.RequestsConserved | crates/rem6-cache/src/mshr.rs:927-1118 | over every run the requests that came in, accepted or in a snapshot, are the live ones plus the completed ones plus those a restore dropped, as multisets, each with the tick, source, allocation flag and priority it was asked with |
| Mshr.CompletionSplits | crates/rem6-cache/src/mshr.rs:764-778 | the targets of a completion split without loss into forwarded ones, which are exactly the writebacks and the maintenance operations, and local ones, each part in arrival order |
| Mshr.RefusedIff | crates/rem6-cache/src/mshr.rs:859-882 | a request that can join no entry is refused exactly when the slots are taken, or it is a prefetch and one more entry would leave no more than the demand reserve |
| Mshr.RunKeepsReserveIff | crates/rem6-cache/src/mshr.rs:859-1118 | at every point of a run the entries that prefetches opened leave the demand reserve free, if and only if they do in every snapshot the run takes over |
| Mshr.RestoreAcceptsIff | crates/rem6-cache/src/mshr.rs:1046-1118 | restore accepts exactly the well-shaped snapshots of the same configuration, takes them over whole, and otherwise changes nothing |
| Mshr.OwnSnapshotAccepted | crates/rem6-cache/src/mshr.rs:1037-1118 | a reachable queue's own snapshot is accepted, and restoring it changes nothing, if and only if no live counter is saturated |
| Mshr.MshrQueue.constructor | crates/rem6-cache/src/mshr.rs:834-841 | the new queue is empty and satisfies the invariant |
| Mshr.MshrQueue.AllocateOrMergeRequest | crates/rem6-cache/src/mshr.rs:927-971 | object state and result equal the allocation function |
| Mshr.MshrQueue.SetInService | crates/rem6-cache/src/mshr.rs:991-1004 | object state equals the marking function |
| Mshr.MshrQueue.SetPending | crates/rem6-cache/src/mshr.rs:1006-1015 | object state equals the unmarking function |
| Mshr.MshrQueue.Complete | crates/rem6-cache/src/mshr.rs:1028-1035 | object state and completion equal the completion function |
| Mshr.MshrQueue.RestoreSnapshot | crates/rem6-cache/src/mshr.rs:1046-1118 | object state and verdict equal the restore function |
| Topological.DrainIsStepwise | crates/rem6-cache/src/mshr.rs:973-989 | every element of the drained list is, when taken, unblocked and of least key among the unblocked |
| Topological.OrderRespected | crates/rem6-cache/src/mshr.rs:973-989 | no element of the drained list comes before one that orders before it |
| Topological.StuckHasCycle | crates/rem6-cache/src/mshr.rs:973-989 | if every pending entry is blocked there is a cycle among them |
| Topological.DrainSucceedsIffAcyclic | crates/rem6-cache/src/mshr.rs:973-989 | draining comes to an end if and only if the pending entries have no cycle |
| Topological.DrainLoop | crates/rem6-cache/src/mshr.rs:973-989 | the loop yields the labels of the drained list, or gets stuck exactly when there is none |
| ReadyOrder.ReadyIsExact | crates/rem6-cache/src/mshr.rs:973-989 | the pending list holds each ready entry that is not in service once, and nothing else |
| ReadyOrder.ReadyHandlesCorrect | crates/rem6-cache/src/mshr.rs:973-1179 | the ready list is a permutation of the ready entries in stepwise least order that respects their ordering, and exists if and only if there is no ordering cycle |
| ReadyOrder.EffectivePriorityIs | crates/rem6-cache/src/mshr.rs:517-527 | an entry's priority is the least that any of its targets carries, or 255 when none carries one |
| ReadyOrder.UnorderedListIsSorted | crates/rem6-cache/src/mshr.rs:973-1180 | where no ready entry must come before another the list is sorted: more urgent first, then ready for longer, then queued earlier |
| ReadyOrder.AnswersFollow | crates/rem6-cache/src/mshr.rs:991-1035 | which handles are unknown, in service or not follows from what the run did to them, and decides the answers of marking, unmarking, delaying and completing |
| ReadyOrder.ListFollowsRun | crates/rem6-cache/src/mshr.rs:927-1118 | the list of any run names exactly the live handles that were not put in service since they were allocated or requeued and whose last tick has come |
| ReadyOrder.UnmergedAlwaysReady | crates/rem6-cache/src/mshr.rs:1158-1167 | while no ready entry has merged targets the list always exists |
| ReadyOrder.SelfBlockedEntryPanics | crates/rem6-cache/src/mshr.rs:1140-1167 | a ready entry one of whose targets orders before another blocks the list for good |
| ReadyOrder.FencedPairPanics | crates/rem6-cache/src/mshr.rs:973-989 | two mergeable requests of one line, the first ordered before the second, lead a fresh queue to that state |
| ReadyOrder.FencedPair | crates/rem6-memory/src/ordering.rs:53-67 | such a pair exists: a read with a full barrier after it and a later read of the same bytes |
| ReadyOrder.ReadyHandles | crates/rem6-cache/src/mshr.rs:973-989 | returns the handles of the ready list, or nothing exactly when there is none |
| Bank.NewInv | crates/rem6-cache/src/bank.rs:421-459 | a fresh bank satisfies the correspondence invariant |
| Bank.MergeIndexIsLine | crates/rem6-cache/src/mshr.rs:533-540 | with one entry a line, a request joins the entry of its line if it may, and no entry otherwise |
| Bank.EntryIffInFlight | crates/rem6-cache/src/bank.rs:999-1098 | a line has a queue entry if and only if its controller has a miss in flight |
| Bank.CoalesceKeepsInv | crates/rem6-cache/src/bank.rs:999-1098 | a coalesced read that may join its line's entry keeps entries, fills and lines in one-to-one correspondence |
| Bank.HitKeepsInv | crates/rem6-cache/src/bank.rs:999-1098 | a hit applies the request to the line, answers it, and keeps the correspondence |
| Bank.ServedShape | crates/rem6-cache/src/bank.rs:999-1098 | a request answered at once changes its line alone, and the answer is read off the new data |
| Bank.SentShape | crates/rem6-cache/src/bank.rs:999-1098 | a miss adds one line, one entry and one pending fill that agree on handle, line and downstream id, keeps the correspondence, and answers with the request it sends, under the next sequence number and for the permission the line then waits for |
| Bank.SendsHow | crates/rem6-cache/src/bank.rs:999-1098 | an accepted request either is answered and sends nothing, or joins a miss in flight and sends nothing, or sends one request under a sequence number that its line's new entry waits for from then on |
| Bank.WaitsAsAsked | crates/rem6-cache/src/bank.rs:1045-1097 | a request that waits does so once, as a demand with the priority it came with, and nothing else that waits changes |
| Bank.WaitsIff | crates/rem6-cache/src/bank.rs:1045-1061 | while a line's miss is in flight exactly the fetches, shared reads and read prefetches for which there is room are let in, to wait |
| Bank.FetchesIff | crates/rem6-cache/src/bank.rs:1063-1097 | a request for an absent line, or for a shared one it must own, is sent for exactly when an entry is free and an absent line has a range to ask for |
| Bank.CoalescedShape | crates/rem6-cache/src/bank.rs:1045-1061 | a read of a line with a miss in flight changes the queue alone, or nothing when the queue refuses it |
| Bank.JoinsIff | crates/rem6-cache/src/mshr.rs:533-540 | a request may join the entry of a miss in flight if and only if neither it nor the request that missed is strictly ordered |
| Bank.Unjoined | crates/rem6-cache/src/bank.rs:1045-1061 | a read that may not join gets a second entry for its line, which breaks the correspondence, or is refused with nothing changed when the queue is full |
| Bank.OverflowBreaks | crates/rem6-cache/src/bank.rs:1063-1077 | a miss on the last line is refused with its line left waiting, for which no entry and no pending fill stands |
| Bank.OverflowedLineIsLost | crates/rem6-cache/src/bank.rs:1063-1077 | after that every request for the line is refused as busy |
| Bank.LastLineRead | crates/rem6-cache/src/bank.rs:1063-1077 | a one-byte read of the last 64-byte line does this to an empty bank |
| Bank.CoalescingKeepsInvIff | crates/rem6-cache/src/bank.rs:1684-1691 | a coalescible read of a line with a miss in flight keeps the correspondence if and only if neither of the two is strictly ordered, or no entry is free |
| Bank.StrictMissStrands | crates/rem6-cache/src/bank.rs:999-1098 | after a strictly ordered miss, a read of its line is accepted, ordered or not, and breaks the correspondence while an entry is free |
| Bank.StrictMissThenRead | crates/rem6-cache/src/bank.rs:999-1098 | a strictly ordered and an ordinary read of one line do this to an empty bank |
| Bank.HitRefusedIff | crates/rem6-cache/src/bank.rs:1693-1782 | a line that could serve a request refuses it if and only if it is a prefetch that asks for no answer, or a load-locked of a shared line while the queue is full |
| Bank.RequestStepInv | crates/rem6-cache/src/bank.rs:999-1098 | a request, strictly ordered or not, keeps the correspondence if and only if it neither fetches a line that cannot be asked for nor waits on a miss whose entry it may not join; otherwise every refusal, a full queue included, leaves at most a sequence number behind |
| Bank.RepliesAreExpected | crates/rem6-cache/src/bank.rs:1115-1215 | the answers to a completed entry are flat memory's, one per target, in arrival order |
| Bank.FillResult | crates/rem6-cache/src/bank.rs:1115-1215 | a usable fill resolves exactly its own miss, and the line holds the filled data with the original request applied |
| Bank.FillStepInv | crates/rem6-cache/src/bank.rs:1115-1215 | whatever the response, the correspondence is kept if and only if no fill waits for it, or it leaves the line with data and the request that missed wants an answer |
| Bank.SilentMissBreaks | crates/rem6-cache/src/bank.rs:1115-1215 | when a prefetch that asks for no answer was the miss, its fill is refused after the line has taken it, entry and pending fill stay behind, and any further fill is refused |
| Bank.PrefetchMiss | crates/rem6-cache/src/bank.rs:1115-1215 | one read prefetch and its fill do this to an empty bank |
| Bank.FillStep | crates/rem6-cache/src/bank.rs:1115-1215 | a fill removes exactly its own entry, answers its targets in arrival order over the content with the original's write, gives nothing to those that ask for nothing, and changes no line's content |
| Bank.HitStep | crates/rem6-cache/src/bank.rs:999-1098 | a request answered at once has flat memory's effect on its line, no effect elsewhere, and flat memory's answer |
| Bank.MissStep | crates/rem6-cache/src/bank.rs:999-1098 | a miss counts its effect on its line from now on and touches no other line |
| Bank.Replies | crates/rem6-cache/src/bank.rs:1115-1215 | the loop over the targets gives the answers in order, or the first failure |
| Bank.EntryFor | crates/rem6-cache/src/bank.rs:999-1098 | the scan finds the first entry of the line, or none |
| Bank.MsiCacheBank.constructor | crates/rem6-cache/src/bank.rs:421-459 | the new bank is empty and in correspondence |
| Bank.MsiCacheBank.Record | crates/rem6-cache/src/bank.rs:1076-1097 | object state and result equal the function of the controller's verdict, the request handed downstream included |
| Bank.MsiCacheBank.AcceptCpuRequest | crates/rem6-cache/src/bank.rs:999-1098 | object state and result equal the request function, and the correspondence is kept exactly for the requests that function keeps it for |
| Bank.MsiCacheBank.AcceptFillResponse | crates/rem6-cache/src/bank.rs:1115-1215 | object state and answers equal the fill function, and the correspondence is kept exactly for the responses it does not know and the usable fills |
| BankRuns.AcceptedHow | crates/rem6-cache/src/bank.rs:999-1098 | an accepted request that is not stranded moves the bank's contents as flat memory's; its answer is given now with nothing owed on its line, or owed behind the others |
| BankRuns.FillGives | crates/rem6-cache/src/bank.rs:1115-1215 | the fill of a miss that wants an answer succeeds and hands over exactly the answers its line owes, in order |
| BankRuns.StepIsFaithfulIff | crates/rem6-cache/src/bank.rs:999-1215 | a step keeps bank and flat memory together, and the requests sent and not yet answered the pending fills, if and only if it neither fetches a line that cannot be asked for, nor waits on a miss whose entry it may not join, nor fills a prefetch that missed and asks for no answer |
| BankRuns.RunIsFaithfulIff | crates/rem6-cache/src/bank.rs:999-1215 | in every run, strictly ordered requests included, the bank mirrors flat memory throughout, on each line flat memory's answers to the accepted requests are the delivered ones followed by the owed ones, and the requests it sent and memory has not answered are its pending fills, if and only if no step of the run is one of those three |
| BankRuns.UnansweredIsPending | crates/rem6-cache/src/bank.rs:999-1215 | the requests sent and not yet answered are exactly the pending fills, each for the permission its line waits for |
| BankRuns.AnswerIsFill | crates/rem6-cache/src/bank.rs:1115-1215 | the backing store's answer to a request that was sent is the fill that its line waits for |
| BankRuns.OrdinaryRunsAreFaithful | crates/rem6-cache/src/bank.rs:999-1215 | this holds of every run whose requests want answers, are not strictly ordered and stay below the last line |
| BankRuns.QuietBankIsFlatMemory | crates/rem6-cache/src/bank.rs:999-1215 | once nothing is outstanding every request sent has been answered, the delivered answers are exactly flat memory's, line by line in order, and every cached line has flat memory's bytes |
| Skewing.HashDehash | crates/rem6-cache/src/indexing.rs:272-285 | hash and dehash are inverse to each other at every width from two bits on |
| Skewing.HashTimesLinear | crates/rem6-cache/src/indexing.rs:272-277 | repeated hashing distributes over exclusive or |
| Skewing.Recurrence | crates/rem6-cache/src/indexing.rs:204-285 | hashing n times and n-1 times an n-bit value differ by the value itself |
| Skewing.StepRecovers | crates/rem6-cache/src/indexing.rs:227-270 | hashing recovers a value from the exclusive or of it and its hash |
| Skewing.DeskewOnceUndoesSkewOnce | crates/rem6-cache/src/indexing.rs:204-270 | each of the eight skewing functions is undone by its deskewing function |
| Skewing.SkewIsBijective | crates/rem6-cache/src/indexing.rs:204-270 | for every width from two bits on, all upper bits and all ways, eight and more included, deskew and skew are inverse in both orders |
| Skewing.NextRound | crates/rem6-cache/src/indexing.rs:204-225 | way w + 8 is way w hashed once more |
| Skewing.ReadsOff | crates/rem6-cache/src/indexing.rs:204-225 | with more than four sets the function of a way can be read off its answers to a single set bit |
| Skewing.FourSetsFold | crates/rem6-cache/src/indexing.rs:204-225 | with four sets each of the eight functions agrees with its mirror image |
| Skewing.DifferIff | crates/rem6-cache/src/indexing.rs:204-225 | two of the eight functions differ somewhere if and only if there are more than four sets or they are not mirror images |
| Indexing.NewConfig | crates/rem6-cache/src/indexing.rs:47-90 | a configuration is accepted exactly for the stated sizes, and is then well formed |
| Indexing.ComputeSkew | crates/rem6-cache/src/indexing.rs:204-225 | the 64-bit loops compute the n-bit skew of the block address |
| Indexing.ComputeDeskew | crates/rem6-cache/src/indexing.rs:227-270 | the 64-bit loops compute the n-bit deskew |
| Indexing.SetFor | crates/rem6-cache/src/indexing.rs:138-151 | every candidate set is in range |
| Indexing.PartsOfAddress | crates/rem6-cache/src/indexing.rs:134-151 | in numbers, the tag is the address divided by the bytes of all sets, and without skewing the set is the line number modulo the sets |
| Indexing.PlainSetFieldRecovered | crates/rem6-cache/src/indexing.rs:138-171 | without skewing the located set is the address's set field |
| Indexing.SkewedSetFieldRecovered | crates/rem6-cache/src/indexing.rs:134-171 | deskewing the located set with the tag's bits gives back the address's set field |
| Indexing.RegenerateInvertsLocation | crates/rem6-cache/src/indexing.rs:134-171 | the tag of an address and any of its candidate locations regenerate its line address |
| Indexing.TagAndLocationIdentifyLine | crates/rem6-cache/src/indexing.rs:134-171 | two addresses with the same tag and location lie in the same line |
| CompressedTags.NextPowerOfTwoCapped | crates/rem6-cache/src/compressed_tags.rs:1528-1537 | the loop gives the least power of two that reaches the value, or the cap |
| CompressedTags.FactorIsPower | crates/rem6-cache/src/compressed_tags.rs:1512-1537 | a compression factor is the whole ratio for an empty line, one for an incompressible line, and otherwise the least power of two that reaches the line's ratio, up to the cap |
| CompressedTags.WayOfFinds | crates/rem6-cache/src/compressed_tags.rs:551-560 | a superblock is held exactly where the candidate search finds it |
| CompressedTags.InsertValid | crates/rem6-cache/src/compressed_tags.rs:229-333 | insertion keeps every validator condition, whichever way the policy picks |
| CompressedTags.InvalidateValid | crates/rem6-cache/src/compressed_tags.rs:373-422 | invalidation keeps every validator condition |
| CompressedTags.RunValid | crates/rem6-cache/src/compressed_tags.rs:229-503 | every state reachable by insert, access, invalidate and restore satisfies the validator |
| CompressedTags.OwnSnapshotRestores | crates/rem6-cache/src/compressed_tags.rs:466-503 | a reachable state's own snapshot restores to that state from any state |
| CompressedTags.FindIffResident | crates/rem6-cache/src/compressed_tags.rs:191-210 | lookup succeeds for an address if and only if its line is resident, and returns that line's block |
| CompressedTags.InsertResident | crates/rem6-cache/src/compressed_tags.rs:229-333 | the resident lines after an insert are the old ones without the reported evictions, plus the inserted line; a failed insert changes nothing |
| CompressedTags.InsertFound | crates/rem6-cache/src/compressed_tags.rs:229-333 | an inserted line is found at once, where the report says, with its size, and with the factor that its size gives or the one its superblock had |
| CompressedTags.InsertKeepsOthers | crates/rem6-cache/src/compressed_tags.rs:229-333 | every line that is not reported evicted is found as before, and the evicted ones are not |
| CompressedTags.SharedSuperblock | crates/rem6-cache/src/compressed_tags.rs:229-333 | lines of one superblock that fit a share each end up resident in one entry, as many as the factor of their size allows |
| CompressedTags.CoallocatesIff | crates/rem6-cache/src/compressed_tags.rs:1336-1345 | an insertion joins a held superblock if and only if its factor is above one, the line's place is free, a share is left and the line fits it; it then evicts nothing and keeps the factor |
| CompressedTags.InvalidateResident | crates/rem6-cache/src/compressed_tags.rs:373-422 | invalidation removes exactly its line |
| CompressedTags.InvalidateFinds | crates/rem6-cache/src/compressed_tags.rs:373-422 | an invalidated line is found no more, every other line as before, and the report is the line as it was found, with factor one when its superblock goes too |
| CompressedTags.RoundedSize | crates/rem6-cache/src/compressed_tags.rs:1512-1537 | rounding the ratio up costs less than a factor of two |
| CompressedTags.CapacityBound | crates/rem6-cache/src/compressed_tags.rs:1336-1345 | in a valid superblock of factor f from two on, resident bits times f are below line bits times f + 1 |
| CompressedTags.ReachableCapacity | crates/rem6-cache/src/compressed_tags.rs:229-503 | the bound holds in every entry of every reachable state |
| CompressedTags.ValidateEntry | crates/rem6-cache/src/compressed_tags.rs:859-1005 | accepts an entry exactly when it is in order and its superblock is new; the duplicate-line check can then never fire |
| CompressedTags.ValidateSnapshot | crates/rem6-cache/src/compressed_tags.rs:819-857 | the nested loops with their seen sets accept exactly the valid tags |
| CompressedTags.CompressedTagStore.constructor | crates/rem6-cache/src/compressed_tags.rs:174-186 | the new tags are empty and valid |
| CompressedTags.CompressedTagStore.WayHolding | crates/rem6-cache/src/compressed_tags.rs:551-560 | the scan over the candidates gives the first way that holds the superblock |
| CompressedTags.CompressedTagStore.FindLine | crates/rem6-cache/src/compressed_tags.rs:191-210 | the lookup succeeds exactly for resident lines |
| CompressedTags.CompressedTagStore.InsertLine | crates/rem6-cache/src/compressed_tags.rs:229-333 | object state and report equal the insertion function, and stay valid |
| CompressedTags.CompressedTagStore.InvalidateLine | crates/rem6-cache/src/compressed_tags.rs:373-422 | object state and report equal the invalidation function, and stay valid |
| CompressedTags.CompressedTagStore.RestoreSnapshot | crates/rem6-cache/src/compressed_tags.rs:478-503 | takes over exactly the valid snapshots and otherwise changes nothing |
| TagGeometry.AddressParts | crates/rem6-cache/src/compressed_tags.rs:133-140 | line, superblock base and offset of an address are determined by its block number |
| TagGeometry.TagConfigValid | crates/rem6-cache/src/compressed_tags.rs:133-164 | every admitted line size, ratio and indexing policy gives a geometry in which superblock and offset identify a line |
| SecondChance.EarliestOf | crates/rem6-cache/src/compressed_tags.rs:743-761 | the scan selects the least insertion tick, the first among equals |
| SecondChance.FirstUntouchedIff | crates/rem6-cache/src/compressed_tags.rs:662-693 | the victim is the earliest candidate without the mark, or the earliest of all when every one has it, if and only if the earliest candidate is unmarked, or all are marked, or an unmarked one comes before the tick handed out next; at the counter's top the positions decide |
| SecondChance.VictimIsFirstUntouched | crates/rem6-cache/src/compressed_tags.rs:662-693 | a counter no candidate is ahead of meets that condition |
| SecondChance.PassedOver | crates/rem6-cache/src/compressed_tags.rs:662-693 | exactly the marked candidates before the victim are inserted anew; the rest is untouched |
| SecondChance.StaleCounter | crates/rem6-cache/src/compressed_tags.rs:662-693 | with a counter behind the ticks a marked candidate can be chosen over an unmarked one |
| SecondChance.SelectVictim | crates/rem6-cache/src/compressed_tags.rs:662-693 | the loop ends, returns an unused candidate when there is one, and otherwise computes the settled choice and marks |
| SecondChance.SettleKeeps | crates/rem6-cache/src/compressed_tags.rs:662-693 | settling takes no candidate in or out of use, and leaves no tick ahead of the counter where there was none |
| SecondChanceTags.RunTags | crates/rem6-cache/src/compressed_tags.rs:229-503 | in every run of skewed tags under second chance, restores included, the tags pass the validator and an entry's bookkeeping says in use exactly when it holds a line |
| SecondChanceTags.OwnTrackedRestores | crates/rem6-cache/src/compressed_tags.rs:465-503 | a run's own snapshot is taken over and gives back tags, bookkeeping and counter |
| SecondChanceTags.TickedIffHonest | crates/rem6-cache/src/compressed_tags.rs:229-503 | no insertion tick is ever ahead of the counter if and only if that holds of every snapshot the run takes over |
| SecondChanceTags.VictimInRun | crates/rem6-cache/src/compressed_tags.rs:229-333 | in such a run, while the counter lasts, a new superblock whose candidates are all in use takes over the earliest one not touched since, or the earliest of all when every one was |
| SecondChanceQueue.SettleEvicts | crates/rem6-cache/src/compressed_tags.rs:662-693 | while the counter lasts, the loop over ticks and marks is eviction from the queue of places: the front candidate, used ones going to the back first |
| SecondChanceQueue.EvictTakes | crates/rem6-cache/src/compressed_tags.rs:662-693 | that eviction takes the candidate that has waited longest of those not used since they joined, or of all when every one was |
| SecondChanceQueue.RunIsQueueIff | crates/rem6-cache/src/compressed_tags.rs:229-503 | at every point of a run the bookkeeping stands for a queue if and only if that of every snapshot taken over does, and the queue is then the one that the run's insertions, hits and invalidations make |
| SecondChanceQueue.VictimWaitedLongest | crates/rem6-cache/src/compressed_tags.rs:229-333 | in such a run a new superblock with no free place replaces the candidate that was filled longest ago of those not used since, or of all when every one was |
| Accelerator.LanesHoldLatestCompletions | crates/rem6-accelerator/src/lib.rs:812-832 | the lane array always holds the latest completions, as many as there are lanes |
| Accelerator.StartsAreFirstComeFirstServed | crates/rem6-accelerator/src/lib.rs:812-832 | each start is the least tick from its accept tick on at which fewer earlier commands than lanes are still running |
| Accelerator.AcceptedIff | crates/rem6-accelerator/src/lib.rs:812-832 | the next command is accepted if and only if some server is free early enough for it to end within the range of ticks |
| Accelerator.LaneReservationsDisjoint | crates/rem6-accelerator/src/lib.rs:812-832 | reservations on one lane never overlap |
| Accelerator.StartsMonotone | crates/rem6-accelerator/src/lib.rs:812-832 | with accept ticks in order, starts are in order |
| Accelerator.BusySpread | crates/rem6-accelerator/src/lib.rs:812-832 | no lane is busy longer beyond another than the longest latency |
| Accelerator.SpreadWithinLongest | crates/rem6-accelerator/src/lib.rs:812-832 | a batch on idle lanes conserves its total work and spreads the lanes by at most the longest latency |
| Accelerator.MakespanBound | crates/rem6-accelerator/src/lib.rs:812-832 | lanes times makespan of such a batch is at most total work plus the longest latency for every other lane |
| Accelerator.ClearAt | crates/rem6-accelerator/src/lib.rs:860-867 | clearing a queued command removes exactly its own record |
| Accelerator.QueueMirrorsStartEvents | crates/rem6-accelerator/src/lib.rs:745-867 | in every run the queue holds exactly the commands whose start is still to come, in order |
| Accelerator.QueueHoldsDelayed | crates/rem6-accelerator/src/lib.rs:745-867 | over every run the lanes are booked like the schedule of the commands accepted, and the queued records together with the fired ones are the commands that could not start at once, each as it was accepted and reserved |
| Accelerator.AcceleratorEngine.constructor | crates/rem6-accelerator/src/lib.rs:948-962 | a new engine has idle lanes and an empty queue |
| Accelerator.AcceleratorEngine.ReserveLane | crates/rem6-accelerator/src/lib.rs:812-832 | the scan and the update of the lane array compute the reservation function |
| Accelerator.AcceleratorEngine.AcceptOnPartition | crates/rem6-accelerator/src/lib.rs:745-763 | accepting reserves a lane and either starts or queues the command |
| Accelerator.AcceleratorEngine.ClearQueuedCommand | crates/rem6-accelerator/src/lib.rs:860-867 | the in-place removal computes the clearing function |
| Dueling.SampleRecorded | crates/rem6-cache/src/dueling.rs:250-278 | a recorded sample was not there before and reads back as its team |
| Dueling.BelowLowIsBelowHigh | crates/rem6-cache/src/dueling.rs:41-100 | the low threshold lies below the high one for every accepted configuration |
| Dueling.SampleKeepsHysteresis | crates/rem6-cache/src/dueling.rs:404-425 | one sample keeps winner, selector and thresholds consistent |
| Dueling.HysteresisHolds | crates/rem6-cache/src/dueling.rs:347-465 | in every run, restores included, the winner agrees with the selector outside the hysteresis band and the selector stays in range |
| Dueling.BandKeepsWinner | crates/rem6-cache/src/dueling.rs:404-425 | a vote changes the winner only to its own team, and only by taking the selector into that team's region |
| Dueling.WinnerIsChampion | crates/rem6-cache/src/dueling.rs:347-465 | over every run, restores included, the selector is the walk of the votes from the middle of its range, the winner is the team whose region, by the ratios of the thresholds, the walk was in last, and the next entry's place counts the entries dealt round the constituency |
| Dueling.VotesCount | crates/rem6-cache/src/dueling.rs:404-425 | votes for one team move the selector one step each, up to its end, and no machine word saturates first |
| Dueling.UnanimousVotesWin | crates/rem6-cache/src/dueling.rs:404-425 | from any consistent state a team that gets every vote wins within as many votes as the selector has steps |
| Dueling.ConstituencyIsFair | crates/rem6-cache/src/dueling.rs:390-402 | a full constituency from any region gives the first team its size, and the second team its size if and only if twice the size fits |
| Dueling.TeamsMirror | crates/rem6-cache/src/dueling.rs:390-402 | the first team samples the start of a constituency and, when both fit, the second its end, mirrored |
| Dueling.UnfairConfigurationAccepted | crates/rem6-cache/src/dueling.rs:61-100 | some accepted configuration is not fair |
| Dueling.DuelingMonitor.constructor | crates/rem6-cache/src/dueling.rs:347-364 | the new monitor is in the initial state, with the bit of its index as its id |
| Dueling.DuelingMonitor.SampleEntry | crates/rem6-cache/src/dueling.rs:404-425 | object state equals the sampling function |
| Dueling.DuelingMonitor.InitEntry | crates/rem6-cache/src/dueling.rs:390-402 | object state and result equal the dealing function |
| Image.AddAllAccepts | crates/rem6-boot/src/image.rs:78-94 | a list of segments is accepted if and only if the segments are loadable and disjoint, and the image is then those segments sorted |
| Image.AddOrderIrrelevant | crates/rem6-boot/src/image.rs:78-94 | rearranged additions are refused together or give the same image |
| Image.RefusalNames | crates/rem6-boot/src/image.rs:78-94 | a segment is refused as empty, as running past the address space, or naming the first segment of the image with which it shares an address; otherwise it is taken |
| Image.CompleteFromIs | crates/rem6-boot/src/image.rs:226-258 | a segment loads completely if and only if it ends below the last line of the address space |
| Image.StoredIsFlatWrite | crates/rem6-boot/src/image.rs:226-258 | line-chunked loading of a segment is a flat write of its bytes with a frame, up to the last line |
| Image.WritesTile | crates/rem6-boot/src/image.rs:226-258 | the reported writes cover the segment left to right without gap or overlap, each as long as its line and the segment allow |
| Image.ReportTiles | crates/rem6-boot/src/image.rs:96-114 | the report of a complete load is the segments' tilings, one after the other |
| Image.LoadingCompletes | crates/rem6-boot/src/image.rs:96-114 | loading succeeds if and only if no segment reaches the last line |
| Image.SegmentsLoaded | crates/rem6-boot/src/image.rs:96-114 | over any store, every byte of every segment below the last line is stored, even where segments share a line |
| Image.OthersKept | crates/rem6-boot/src/image.rs:96-114 | every other byte keeps its value |
| Image.TopLineLost | crates/rem6-memory/src/lib.rs:396-410 | a byte in the last line is accepted as an image, and loading it fails and stores nothing |
| Image.LineMemoryStore.constructor | crates/rem6-memory/src/lib.rs:350-356 | a new store is empty |
| Image.LineMemoryStore.InsertLine | crates/rem6-memory/src/lib.rs:396-410 | stores exactly aligned lines of the right size whose end is in range, and otherwise changes nothing |
| Image.StoreBytes | crates/rem6-boot/src/image.rs:96-114 | reads, patches and stores one line |
| Image.LoadSegment | crates/rem6-boot/src/image.rs:226-258 | the cursor loop leaves the store, the writes and the verdict of the loading functions |
| Image.BootImage.constructor | crates/rem6-boot/src/image.rs:19-26 | a new image has no segments |
| Image.BootImage.Add | crates/rem6-boot/src/image.rs:78-94 | adds a loadable disjoint segment in order, or reports why not and changes nothing |
| Image.BootImage.LoadIntoLineStore | crates/rem6-boot/src/image.rs:96-114 | the loop over the segments leaves the store, the report and the verdict of the loading functions |
| Elf.ReadFieldIff | crates/rem6-boot/src/elf.rs:789-861 | a field reads as its number exactly when it lies in the file, and is reported truncated otherwise |
| Elf.EscapedCount | crates/rem6-boot/src/elf_counts.rs:16-60 | the header count 0xffff stands for the `sh_info` of section header zero, and is refused exactly when that header is missing, mis-sized or outside the file |
| Elf.PlainCount | crates/rem6-boot/src/elf_counts.rs:16-60 | every other header count stands for itself |
| Elf.LayoutFollowsAbi | crates/rem6-boot/src/elf.rs:229-373 | every offset and size the parser uses is where the field list of the System V ABI puts that field, for both classes |
| Elf.AcceptedTable | crates/rem6-boot/src/elf_counts.rs:62-83 | the table of an accepted header lies in the file |
| Elf.HeaderOffsetsExact | crates/rem6-boot/src/elf.rs:297-303 | once the table is accepted no header offset or field offset wraps, and no header is cut short |
| Elf.LoadHeaderIs | crates/rem6-boot/src/elf.rs:317-373 | a `PT_LOAD` header adds its segment exactly when sizes, file range and memory range are in order and the segment fits the image |
| Elf.WalkIs | crates/rem6-boot/src/elf.rs:293-373 | the walk accepts exactly the well-formed headers whose segments can share an image, and gives the image of exactly those segments |
| Elf.ParseAcceptsIff | crates/rem6-boot/src/elf.rs:229-373 | a file is accepted if and only if its header is in order, its program headers are well formed, and the segments they ask for are at least one, loadable and disjoint |
| Elf.LoadedBytes | crates/rem6-boot/src/elf.rs:500-594 | an accepted file loaded into an empty store of any line size holds each header's file bytes at its physical address, then zeros |
| Elf.ElsewhereZero | crates/rem6-boot/src/elf.rs:293-373 | every address that no loaded header claims reads zero |
| Elf.LoadedCompletely | crates/rem6-boot/src/elf.rs:524-571 | the load succeeds if and only if no header reaches the last line; a 32-bit file always loads |
| Elf.ZeroedSegmentData | crates/rem6-boot/src/elf.rs:690-707 | the buffer holds the file's part followed by zeros |
| Elf.WalkHeaders | crates/rem6-boot/src/elf.rs:293-373 | the loop over the program headers computes the walk |
| ElfFiles.EncodedReads | crates/rem6-boot/src/elf.rs:68-87 | a number encoded in either byte order reads back as itself |
| ElfFiles.BigPlaceValue | crates/rem6-boot/src/elf.rs:68-87 | in the big byte order the first byte weighs most |
| ElfFiles.WrittenIsFile | crates/rem6-boot/src/elf.rs:243-291 | a written executable has header, program headers and programs where the format puts them |
| ElfFiles.ParseOfFile | crates/rem6-boot/src/elf.rs:229-373 | any bytes laid out as a file for an executable parse to that executable's entry and segments, and are refused only when it has no programs or they clash |
| ElfFiles.RoundTrip | crates/rem6-boot/src/elf.rs:229-594 | writing and then parsing an executable gives its entry and its segments, exactly when it has programs and they do not overlap, for both classes and byte orders and any number of programs below the escape |
| ElfFiles.OneProgramBoots | crates/rem6-boot/src/elf.rs:229-594 | a written file with one program is always accepted, as that program |
| ElfFiles.WrittenLoads | crates/rem6-boot/src/image.rs:96-114 | written, parsed and loaded into an empty store of any line size, each program's bytes stand at their addresses, followed by zeros |

## Left out

- Other protocols: the MESI, MOESI and CHI controllers and banks, which repeat the MSI code over other state tables.
- Snoops, uncacheable traffic, the write queue and snapshots of the bank.
- Requests through the bank other than cacheable, single-line reads, read prefetches and writes. Atomic and store-conditional answers are recomputed when their miss completes.
- BankRuns.RunIsFaithfulIff: covers runs of fewer than 2^64 - 1 steps, so that queue handles do not saturate; downstream sequence numbers are unbounded in the model.
- Bank.FillStepInv: requires queue handles not to have saturated, for the same reason.
- ReadyOrder.ListFollowsRun: requires the handle counter not to have saturated before any step of the run; handles are not told apart after that.
- SecondChanceQueue.RunIsQueueIff: requires the tick counter to stay at least the number of ways below its end; at its end `SecondChance.FirstUntouchedIff` says what is chosen.
- Bank.MsiCacheBank.AcceptCpuRequest: the miss queue inside the bank is held as a value, so only the bank's own fields are updated in place.
- CompressedTags.InsertValid: the replacement policy is a parameter, any way or a failure; ticks, random state and the policy's own bookkeeping are not part of the tags.
- CompressedTags.OwnSnapshotRestores: says nothing about the restored replacement bookkeeping, for the same reason; for second chance `SecondChanceTags.OwnTrackedRestores` does.
- CompressedTags.CompressedTagStore.RestoreSnapshot: leaves out the restore of the replacement sets, the tick and the random state, for the same reason.
- SecondChance.SelectVictim: the candidates are one array of bookkeeping records rather than entries of different sets; replacement policies other than second chance are not modelled.
- SecondChanceTags.RunTags: leaves out the replacement set kept beside each set of entries, which skewed second chance does not consult; a restore that this set refuses changes nothing.
- Requests of different line sizes: a request carries its own layout in the program, and all requests to a store, controller, bank or queue share one line size in the model.
- Image.LineMemoryStore.InsertLine: leaves out the store's load-locked reservations, which loading an image only clears.
- Loading into a partitioned store, by target or by address.
- ELF sections, symbols, notes, dynamic tables and metadata: only whether these passes fail enters the model, as a parameter of the parser. Allocation failure of a segment buffer is left out.
- ElfFiles.RoundTrip: the writer is this project's own; it writes loadable programs only and no escaped header count.
- Error payloads: errors carry their kind, not their fields.
- Dueling: the sample masks of several monitors on one entry are modelled for one monitor at a time.
- Accelerator DMA, traces and completion records.
- Prefetchers, cache partitioning by fractions, sector tags, directories, the scheduler and the transport: they would add only small tables and filters.
