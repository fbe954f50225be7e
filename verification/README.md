# AubStream page tables and traces: a Dafny model

AubStream simulates a GPU driver's view of memory. It grows page tables for GPU
virtual addresses, takes physical frames from allocators, and streams both the
table entries and the data to AUB trace files and to simulators over shared
memory. A streamed table entry is a copy; the in-memory tree is the original.
Streams can be paused or blocked, tables can be cloned to other tiles, remapped
and torn down, and through all of it the copies have to agree with the tree, the
tree has to agree with a plain lookup, and physical memory must not be shared by
accident. This project models that machinery and proves those agreements, for
all inputs and over whole runs.

`dafny verify dfyconfig.toml` checks everything.

## How it is laid out

State that the program mutates (page-table nodes, allocators, streams, the ring,
the AUB file, the translation tables, the global table) is held by classes whose
loops follow the program's; each method is proved equal to a function on values,
and the theorems are about those functions.

| modules | what they cover |
|---|---|
| `FrameAllocator`, `PhysicalMemory`, `MemoryBanks` | free lists, bank routing, bank colouring |
| `PageTables`, `WalkModel`, `TreeFacts`, `WalkLookup` | the forest of page-table nodes, one page-table walk, and what it does to the simple lookup `Translate` |
| `WalkStream`, `WalkStreamed`, `Streams`, `StreamCoherence`, `TableDecoder`, `DecodedWalks` | pending nodes, the entries queued by a walk, sinks, pause and block flags, decoding the streamed tables alone |
| `FrameOwnership`, `Reservations` | which node owns which frame, and which frames a walk takes in which order |
| `FreeModel`, `FreeFacts`, `FreeExact`, `FreeResults` | tearing down a range |
| `System` | whole histories of walks, reservations, frees and flag changes |
| `Remapping` | mapping over a page that owns its frame, and freeing it afterwards |
| `MapOverride` | mapping a range onto given physical memory |
| `Ps64Groups`, `Ps64Mapping`, `Ps64Lookahead`, `Ps64Freeing`, `Ps64Runs` | the speculative PS64 marks on groups of sixteen 4KB entries |
| `WalkShape`, `Lockstep`, `LockstepFree`, `Tiles`, `Rewalk` | comparing two trees: tiles stay alike, a repeated walk changes nothing |
| `Walker`, `AubStreamObjects`, `AubManagerObjects` | the walker, stream and manager as classes with their loops |
| `EndToEnd` | bytes written and read back in physical memory that holds the page tables too |
| `Shm4`, `HostMemory`, `SharedMemory` | the same through translation tables, down to host memory |
| `AddressSpaces` | the address spaces a trace names for table entries |
| `Packets`, `AubFile` | the AUB record format with a decoder, and the encoder's loops |
| `RingBuffer` | command submission against a consumer |
| `Ggtt`, `EntryBits` | the global table; 64-bit entry values |
| `Arithmetic`, `Wrappers` | division and rounding; optional values |

A page-table node is named by its slot: the tree, the level, and the path of
indices from the root written in base 512. A walk's effects are the tree and
allocators it leaves, the pages it reports, and five lists of entries to stream.
`Translate` is the simple lookup: two map accesses and an addition.

## Where the code does less than one might expect

Each of these is stated exactly, as an if-and-only-if with a condition that can
be checked before the call, or shown by a concrete input.

- The PS64 look-ahead trusts entry 0 of a group and the remaining size, and never
  looks at the entries in between. A mapping keeps whole groups whole if and only
  if its first group is not `Misjudged` (`Ps64Lookahead.MappingKeepsGroupsExactly`,
  `Ps64Lookahead.LookAheadCanBeWrong`). The comment at
  `aub_mem_dump/page_table_walker.cpp:44-46` promises identical neighbours; the
  look-ahead does not check them.
- A mapping lands where it was asked to if and only if it starts on a boundary of
  its first page and, where 2MB pages occur, both addresses are equally far from
  a 2MB boundary (`MapOverride.MapOverridesExactly`,
  `MapOverride.MisalignedTargetMoves`).
- A walk that maps nothing leaves a 2MB page before the pending check, so a 2MB
  page created on a paused stream is not streamed by it
  (`DecodedWalks.CommittedWalkDecodes`, `DecodedWalks.PassedOverStaysPending`).
- A free clears PS64 marks without marking the entries pending. A sink that
  misses the free stays coherent if and only if every entry cut off from its
  group was pending (`FreeResults.MissedFreeExactly`,
  `FreeResults.MissedFreeCanMatter`).
- Mapping over a page that owns its frame does not give the frame back, and
  freeing the page later frees whatever block is at the new address instead: the
  page's own frame comes back if and only if that is where it was mapped, and the
  frame of another page is taken from it (`Remapping.RemapKeepsOwnershipExactly`,
  `Remapping.RemapThenFreeReturnsExactly`, `Remapping.RemapThenFreeTakesFrame`).
  Coherence, decoding and tiles in step survive such mappings. What a later free
  can break are the tables' frames, if and only if the page freed stands at one
  (`FreeFacts.FreeKeepsTablesExactly`), and the alignment of later frames, if and
  only if the block given back is misaligned (`FreeFacts.PoolAfterFree`); a clone
  follows its original if and only if the original's frame is aligned
  (`Lockstep.CloneLandsExactly`).
- Reuse of a freed block ignores the alignment asked for. An answer is aligned if
  and only if no free block has the size or the first that has is aligned
  (`FrameAllocator.AllocFitsExactly`, `FrameAllocator.HistoriesFitExactly`,
  `FrameAllocator.ReuseIgnoresAlignment`).
- A PDE emptied by removing PTE tables stays; only one emptied by removing a 2MB
  page goes (`FreeExact.PdeGoesExactly`).
- Uncached compressed pages of Xe2, Xe3 and Xe3p set bit 7, the large-page bit, in
  4KB leaves as well; the page size can be read back from a leaf's value if and
  only if bit 7 is not one of the GPU's own bits (`EntryBits.PageSizeReadsExactly`,
  `EntryBits.SmallLooksLarge`).
- In the legacy address spaces a free sends the zero of a PDP entry to system
  memory at large and not where the walk sent the entry
  (`AddressSpaces.ClearedWhereWrittenExactly`).
- A 64KB look at the global table agrees with its entries if and only if the
  block it reads is whole, which a 4KB page made by itself is not
  (`Ggtt.LargePageExactly`, `Ggtt.SmallThenLargeDisagrees`).
- The ring waits for the consumer only when it wraps, so a consumer still standing
  before the no-op fill can be overtaken. No pending byte is overwritten, but what
  it fetches is the queue if and only if it has not been overtaken
  (`RingBuffer.FetchIsQueue`, `RingBuffer.ConsumerCanBeLapped`).
- With no local allocators, a page of a local bank is mapped in the system
  translation table while its node says local: it can be reached if and only if
  its bank is the main one or there are local allocators
  (`HostMemory.ReservedReachableExactly`, `HostMemory.LocalPageIsLost`).

## Model

| member | source | states |
|---|---|---|
| FrameAllocator.AllocConserves | aub_mem_dump/physical_address_allocator.h:28-49 | An allocation returns a block of exactly the size asked for and never loses or splits one: it reuses a free block if and only if one has that size, and otherwise adds a single fresh block at or above the bump pointer. |
| FrameAllocator.AllocKeepsValid | aub_mem_dump/physical_address_allocator.h:28-49 | Blocks stay non-empty, pairwise disjoint and below `nextAddress`, and the block handed out overlaps no block in use. |
| FrameAllocator.AllocKeepsAligned | aub_mem_dump/physical_address_allocator.h:31-48 | Although reuse never looks at the alignment, requests whose alignment equals their size (at least 4KB) always get aligned blocks back. |
| FrameAllocator.ReleaseReturnsBlock | aub_mem_dump/physical_address_allocator.h:51-59 | Freeing the address of a live block moves exactly that block from the used to the free blocks. |
| FrameAllocator.HistoryKeepsValid | aub_mem_dump/physical_address_allocator.h:22-68 | Over every history of requests and frees with positive sizes, all blocks ever made stay pairwise disjoint and below the bump pointer, blocks only ever get added, and alignment survives when every request asks for its own size. |
| FrameAllocator.ReuseIgnoresAlignment | aub_mem_dump/physical_address_allocator.h:31-40 | Counterexample: a 64KB-aligned request for 4KB gets a free block at 0x1000. |
| FrameAllocator.AllocFitsExactly | aub_mem_dump/physical_address_allocator.h:28-49 | What is handed out is aligned to the request (at least 4KB) if and only if no free block has the size, or the first one that does is aligned. |
| FrameAllocator.HistoriesFitExactly | aub_mem_dump/physical_address_allocator.h:22-68 | Where every size is always asked for with one alignment, every answer of every history of requests and frees is aligned if and only if every block, free or in use, is aligned now; otherwise some history brings a misaligned block out. |
| FrameAllocator.InsertKeepsOrder | aub_mem_dump/physical_address_allocator.h:66-67 | The multimaps stay in address order, which decides which block of a size is found first. |
| FrameAllocator.SimpleAllocator.AlignedAlloc | aub_mem_dump/physical_address_allocator.h:28-49 | The method's new state and result are those of the allocation function the lemmas above are about. |
| FrameAllocator.SimpleAllocator.AlignedFree | aub_mem_dump/physical_address_allocator.h:51-59 | The method's new state is that of the release function; an unknown address changes nothing. |
| PhysicalMemory.ReserveFacts | aub_mem_dump/physical_address_allocator.cpp:25-39 | A reservation of any size, with an alignment up to a page or of whole pages, takes a page-aligned block from the bank's own allocator that overlaps no block in use there, and changes what is in use nowhere else. |
| PhysicalMemory.FreeFrameFacts | aub_mem_dump/physical_address_allocator.cpp:41-55 | Freeing an address moves exactly the block in use there, if any, to the free blocks, in its own bank only. |
| PhysicalMemory.FreshFrameAligned | aub_mem_dump/physical_address_allocator.cpp:25-39 | As long as no misaligned free block is waiting, a frame of a page's size starts on a multiple of it, although reuse never looks. |
| PhysicalMemory.InUseDisjoint | aub_mem_dump/physical_address_allocator.cpp:13-39 | Two blocks in use in the same kind of memory never overlap, whichever banks they come from, as long as no bank has grown out of its window. |
| PhysicalMemory.FreshIsValid | aub_mem_dump/physical_address_allocator.cpp:13-23 | The constructor's start addresses give a valid state for every number of banks. |
| PhysicalMemory.PhysicalAddressAllocatorSimple.BankIndex | aub_mem_dump/physical_address_allocator.cpp:30-34 | The shifting loop ends at the number of the lowest bit of the bank mask. |
| PhysicalMemory.PhysicalAddressAllocatorSimple.ReservePhysicalMemory | aub_mem_dump/physical_address_allocator.cpp:25-39 | State and address after a reservation are those of the reference function, main or local bank. |
| PhysicalMemory.PhysicalAddressAllocatorSimple.FreePhysicalMemory | aub_mem_dump/physical_address_allocator.cpp:41-55 | State after a free is that of the reference function. |
| MemoryBanks.MemoryBankHelper.ScanBanks | aub_mem_dump/memory_bank_helper.h:24-33 | The do-while scan over shifted masks collects exactly the single banks of the mask, lowest first, also for mask 0. |
| MemoryBanks.MemoryBankHelper.GetMemoryBank | aub_mem_dump/memory_bank_helper.h:39-51 | The bank of an address is the reference colouring. |
| MemoryBanks.BankIsOneOf | aub_mem_dump/memory_bank_helper.h:39-51 | Every page gets one of the banks asked for, and the main bank when none was asked for. |
| MemoryBanks.BanksTakeTurns | aub_mem_dump/memory_bank_helper.h:33-51 | Colouring is even: the k-th equal run of the allocation lies in bank k modulo the number of banks, at every offset of the run. |
| PageTables.ChildIsTableSlot | aub_mem_dump/page_table.h:331-376 | Following `getIndex` one level down reaches the entry numbered by the address divided by that level's span, for 4- and 5-level tables. |
| PageTables.LeafSlotInjective | aub_mem_dump/page_table.h:201-247 | Under a 4KB, 64KB or legacy 64KB PTE, two addresses of a tree share an entry if and only if they lie in the same page. |
| TreeFacts.TablesDownFacts | aub_mem_dump/page_table_walker.cpp:188-262 | Going down the tables, only tables on the path of the address are added, what was there keeps its kind, frame and bank, and only an Expect walk stops at a hole. |
| TreeFacts.PageVisitFacts | aub_mem_dump/page_table_walker.cpp:173-352 | One page visit leaves a well-formed forest, adds nodes on one path only, moves no node but the leaf it ends at, and that leaf is the one the simple lookup finds, with the page size reported. |
| WalkLookup.WalkMatchesLookup | aub_mem_dump/page_table_walker.cpp:130-387 | What a walk reports is exactly the cut of its range along the pages of the tree it leaves; only an Expect walk ends at a hole and only a Clone walk runs out of pages. |
| WalkLookup.PagesAreBytes | aub_mem_dump/page_table_walker.cpp:364-374 | Byte j of that cut is the simple lookup of the j-th address: piece sizes and in-page offsets add up under mixed 4KB, 64KB and 2MB pages. |
| WalkLookup.WalkMemoryMatchesLookup | aub_mem_dump/page_table_walker.cpp:130-387 | A completed walk's entries sum to the requested size, every byte's recorded address and locality equal the pure lookup in the final tree, and lookups of every address of every tree outside the walked pages are unchanged. |
| WalkLookup.WalkKeepsEarlier | aub_mem_dump/page_table_walker.cpp:173-387 | Later turns of a walk change neither the pages of earlier turns nor any other tree. |
| WalkLookup.WalkKeepsOutside | aub_mem_dump/page_table_walker.cpp:173-387 | An address that shares no leaf page with the walked range keeps its whole lookup, in every tree. |
| WalkStream.UpgradeFromPays | aub_mem_dump/page_table_walker.cpp:279-302 | Completing a group leaves nothing owed to the stream: the last entry queued for each member is its value with the mark. |
| WalkStream.DowngradeFromPays | aub_mem_dump/page_table_walker.cpp:303-316 | Breaking a group leaves nothing owed: the last entry queued for each member is its value without the mark. |
| WalkStream.VisitLeafKeepsQueued | aub_mem_dump/page_table_walker.cpp:279-346 | Placing and streaming a leaf keeps the queue current: an entry not pending was not changed, a pending one is queued with its value, through upgrade, downgrade and speculation. |
| WalkStreamed.WalkKeepsQueued | aub_mem_dump/page_table_walker.cpp:173-348 | Over a whole walk, nodes that are not pending are unchanged since its start, every emitted node's last queued value is its current one, and the lists to clear are exactly the emitted nodes. |
| WalkStreamed.WalkHandlesPaths | aub_mem_dump/page_table_walker.cpp:188-348 | After a completed walk every table on the path of every visited byte, and its leaf, was either not pending or is being streamed; the one exception is a 2MB page already pending when a non-mapping walk met it. |
| WalkStreamed.LargePageNeverQueued | aub_mem_dump/page_table_walker.cpp:203-210 | A non-mapping walk never streams a 2MB page that was there before it, pending or not. |
| FrameOwnership.WalkOwned | aub_mem_dump/page_table_walker.cpp:231-277 | Every walk, whatever it maps over what, keeps the tables' frames in use and pairwise different; Reserve, Clone and Expect walks keep those of all nodes, and so do mapping walks when no leaf in their range owns a frame. |
| FrameOwnership.OwnedFramesAligned | aub_mem_dump/page_table.cpp:20-24 | Where every node's frame is accounted for, each starts on a multiple of its size. |
| FrameOwnership.OwnedFramesDisjoint | aub_mem_dump/page_table.cpp:15-25 | Two tables, or two nodes of any kind where leaves are accounted for too, in memory of the same kind have disjoint frames. |
| Reservations.WalkServes | aub_mem_dump/page_table_walker.cpp:188-262 | A walk changes the allocators by exactly its list of reservations in order: page by page, the tables missing from the top down in the root's bank, then the leaf in its colour's bank. |
| Reservations.VisitKeepsPool | aub_mem_dump/page_table_walker.cpp:231-253 | A page visit keeps the allocators sound, and a leaf that gets a frame of its own stands on a multiple of its size, whatever was mapped before. |
| Streams.StoreKeepsLast | aub_mem_dump/aub_stream.cpp:312-330 | A location of a sink ends up with the last entry listed for its slot, or keeps what it held. |
| Streams.WriteLevelsStores | aub_mem_dump/aub_tbx_stream.h:125-130 | Paused and blocked flags decide per sink whether it takes all five lists of a walk or none of them. |
| Streams.CommitClears | aub_mem_dump/aub_stream.cpp:332-338 | A commit changes no node but to clear pending marks, and clears exactly those of the emitted nodes, exactly when every sink was listening. |
| AddressSpaces.ClearedWhereWrittenExactly | aub_mem_dump/aub_stream.cpp:271-329 | For a reader that tells the trace's address spaces apart, an entry a free clears reads as zero where a walk wrote it, if and only if the table is not a PDP in the legacy address spaces. |
| StreamCoherence.FramesGiveSlotsApart | aub_mem_dump/page_table.cpp:15-25 | Because table frames are disjoint, no two table entries of any trees share a physical location. |
| StreamCoherence.SinkAfterWalk | aub_mem_dump/aub_stream.cpp:312-330 | A sink that took a walk holds, for each entry of the forest, the last value queued for it, or what it held before. |
| StreamCoherence.TakenKeepsCoherent | aub_mem_dump/aub_stream.cpp:312-339 | A sink that took the walk agrees with every node not pending, before and after the marks are cleared. |
| StreamCoherence.SkippedKeepsCoherent | aub_mem_dump/aub_stream.cpp:332-338 | A sink that took nothing still agrees with every node not pending, because whatever changed is pending. |
| StreamCoherence.CommitKeepsCoherent | aub_mem_dump/aub_stream.cpp:312-339 | Committing a walk keeps every sink coherent, whatever the pause and block flags say. |
| TableDecoder.DecodeFinds | aub_mem_dump/page_table.h:188-376 | Decoding a sink from any table of the path agrees with the simple lookup. |
| TableDecoder.DecodeRootFinds | aub_mem_dump/page_table.h:188-376 | For an address whose path is written out, the streamed entries alone, read from the root's address, translate it as the in-memory tree does. |
| FreeFacts.FreePageKeepsInv | aub_mem_dump/aub_stream.cpp:151-261 | One turn of the free deletes exactly the page's leaf, its PTE table if that leaf was its last entry, or for a 2MB page the PDE it emptied; the blocks at the deleted nodes' addresses become free and the queued entries follow. |
| FreeFacts.FreeKeepsTablesExactly | aub_mem_dump/page_table.cpp:43-50 | A free, of anything, keeps the tables' frames in use if and only if no leaf it deleted, that gives a frame back, stood at the frame of a table that stays. |
| FreeFacts.FreeKeepsOwners | aub_mem_dump/page_table.cpp:43-50 | Where no leaf was moved out of its frame, a free gives back exactly the deleted nodes' own frames and the other nodes keep theirs. |
| FreeFacts.PoolAfterFree | aub_mem_dump/physical_address_allocator.h:51-59 | The free blocks stay aligned if and only if every block the free gives back is. |
| FreeExact.FreeClearsRange | aub_mem_dump/aub_stream.cpp:140-269 | After a free that ran to its end no address of the range has a leaf. |
| FreeExact.FreeKeepsOutside | aub_mem_dump/aub_stream.cpp:140-269 | Addresses sharing no leaf page with the range keep their lookup, in every tree, even when the call ends early. |
| FreeExact.MappedFreeCompletes | aub_mem_dump/aub_stream.cpp:151-154 | Freeing a fully mapped range never takes the early return, whatever page sizes it meets. |
| FreeExact.FreeLeavesNoEmptyPte | aub_mem_dump/aub_stream.cpp:251-260 | A PTE table the call passed through and left in place still has an entry. |
| FreeExact.PdeGoesExactly | aub_mem_dump/aub_stream.cpp:214-261 | Over a whole range, the PDE above the last page freed under it is gone if and only if it has no entry left and that page is a 2MB page: a PDE emptied by removing PTE tables stays. |
| FreeExact.DeletedLeaves | aub_mem_dump/aub_stream.cpp:140-269 | Every leaf a free deletes, however far the call gets, is the leaf of an address of the range. |
| FreeResults.MappedFreeIsExact | aub_mem_dump/aub_stream.cpp:123-278 | Freeing a mapped range, whoever owns its frames, runs to its end, unmaps all of it, changes no other lookup, frees exactly the blocks at the deleted nodes' addresses, keeps a PTE table it passed through if and only if it has an entry left, and removes a PDE if and only if it is left empty and its last page in the range is a 2MB page. |
| FreeResults.MissedFree | aub_mem_dump/aub_stream.cpp:184-209 | A completed free changes a survivor if and only if it is a marked entry that the range cuts off from the rest of its 64KB group, and then it only loses the mark. |
| FreeResults.MissedFreeExactly | aub_mem_dump/aub_stream.cpp:184-209 | A sink that was not listening to a free stays coherent if and only if every marked entry the range cuts off was pending; always, when the range starts and ends on 64KB boundaries. |
| FreeResults.MissedFreeCanMatter | aub_mem_dump/aub_stream.cpp:184-209 | Counterexample: one streamed group of sixteen pages, a sink that misses the free of the first page, and fifteen entries it still holds marked. |
| Remapping.RemapKeepsOwnershipExactly | aub_mem_dump/page_table_walker.cpp:264-277 | After a mapping walk over one page whose leaf owns its frame, as a step of the system, every node's frame is accounted for if and only if the page was pointed at an aligned block in use, of the leaf's size, in the bank's own allocator, that is no other node's. |
| Remapping.RemapThenFreeReturnsExactly | aub_mem_dump/page_table.cpp:43-46 | After such a walk and `freeMemory` of the page, the frame the page was given is no longer in use if and only if that is where it was mapped; otherwise it stays taken for good. |
| Remapping.RemapThenFreeTakesFrame | aub_mem_dump/page_table.cpp:43-46 | Mapped onto another leaf's frame and then freed, a page takes that frame with it: the other leaf is still there, unmoved, and its block is free to be handed out again. |
| System.WalkKeepsConsistent | aub_mem_dump/aub_stream.cpp:74-121 | Any walk, including a mapping over pages that own their frames, and its commit keep the tree well formed, the tables' frames owned and every sink coherent. |
| System.FreeKeepsConsistent | aub_mem_dump/aub_stream.cpp:271-277 | A free of a mapped range on a committed stream, that takes no table's frame, does too, and leaves zero as the last value of every cleared entry in every sink. |
| System.OwnBlockSparesTables | aub_mem_dump/page_table.cpp:43-46 | A leaf takes no table's frame with it when it is freed if it owns none, or stands at a block in use of its own size that no other node owns. |
| System.NewTreeKeepsConsistent | aub_mem_dump/page_table.h:371-375 | Creating the root of a new address space keeps the invariant. |
| System.EmptyIsConsistent | aub_mem_dump/physical_address_allocator.cpp:13-23 | The initial state, with nothing mapped or streamed, satisfies the invariant for every stream. |
| System.RunKeepsConsistent | aub_mem_dump/aub_stream.cpp:74-339 | Over every interleaving of new trees, reservations of physical memory, Reserve, Clone, mapping (over anything) and Expect walks, pause and block toggles and mapped frees while committed that take no table's frame: any node that is not pending has, in every sink, a last streamed value equal to its current one, the forest stays well formed, and all tables' frames stay in use and disjoint. |
| System.RunKeepsOwners | aub_mem_dump/page_table.cpp:15-50 | Over every interleaving of these with frees of anything on any stream, but no mapping over a page that owns its frame, every node's frame, leaf or table, stays in use, aligned and its own. |
| DecodedWalks.CommittedWalkDecodes | aub_mem_dump/page_table_walker.cpp:188-348 | After a completed non-Expect walk on a committed stream, for every byte of its range the path is fully written if and only if the byte does not lie in a 2MB page passed over, and then each sink on its own decodes to the in-memory translation. |
| DecodedWalks.PassedOverStaysPending | aub_mem_dump/page_table_walker.cpp:203-210 | A pending 2MB page met by a non-mapping walk is still pending after that walk's commit. |
| MapOverride.PageVisitLands | aub_mem_dump/page_table_walker.cpp:203-277 | A mapping visit uses the planned page size and leaves the leaf at the (for 2MB realigned) cursor in the bank given, new or existing. |
| MapOverride.VisitKeepsPlan | aub_mem_dump/page_table_walker.cpp:203-215 | A visit never changes which page size any later address of the range will be mapped with. |
| MapOverride.MapOverridesExactly | aub_mem_dump/page_table_walker.cpp:203-277 | After a mapping walk every byte i of the range translates to the given address plus i, in the given bank, if and only if the start and each 2MB page are aligned; whatever was mapped before, including a 64KB fallback in one PDE and the return to 2MB in the next. |
| MapOverride.MisalignedTargetMoves | aub_mem_dump/page_table_walker.cpp:203-215 | Counterexample: a 2MB page asked for at physical 0x1000 is not put there. |
| Ps64Groups.UpgradeMarks | aub_mem_dump/page_table_walker.cpp:279-302 | Completion marks every member of the group and touches nothing else. |
| Ps64Groups.DowngradeMarks | aub_mem_dump/page_table_walker.cpp:303-316 | Downgrade unmarks every member of the group and touches nothing else. |
| Ps64Mapping.LookAhead | aub_mem_dump/page_table_walker.cpp:318-324 | The look-ahead is true if and only if the range will reach the group's end on a 64KB physical boundary and entry 0 already fits; entries 1 to k-1 play no part. |
| Ps64Mapping.GroupAfter | aub_mem_dump/page_table_walker.cpp:279-330 | After each page the visited group is whole, or is on its way to be completed by this walk. |
| Ps64Mapping.WalkKeepsGroups | aub_mem_dump/page_table_walker.cpp:173-348 | A mapping walk in progress, from any page of any group, ends with every PS64 group whole although the invariant is broken mid-walk. |
| Ps64Lookahead.MisjudgedSticks | aub_mem_dump/page_table_walker.cpp:318-328 | When the look-ahead misjudges, the entry is marked while an earlier entry of its group does not fit. |
| Ps64Lookahead.StuckStays | aub_mem_dump/page_table_walker.cpp:173-348 | No later page of the walk repairs that. |
| Ps64Lookahead.MappingKeepsGroupsExactly | aub_mem_dump/page_table_walker.cpp:40-63 | A 4KB mapping of a page-aligned range with uniform parameters keeps "one marked entry means sixteen marked entries with consecutive frames from a 64KB boundary and equal flags" if and only if the look-ahead does not misjudge the range's first group; always, when the range starts on a 64KB boundary. |
| Ps64Lookahead.MarkedEntryServesGroup | aub_mem_dump/page_table_walker.cpp:44-46 | Under that invariant, reading the whole 64KB page through any one marked entry gives every byte the address its own 4KB entry gives. |
| Ps64Lookahead.LookAheadCanBeWrong | aub_mem_dump/page_table_walker.cpp:318-324 | Counterexample: with page 0 mapped at 0x10000, mapping pages 3 to 15 at 0x13000 marks them while pages 1 and 2 have no entry. |
| Ps64Freeing.FreeFromKeepsGroups | aub_mem_dump/aub_stream.cpp:178-209 | Mid-free, a marked entry is in a whole group, will be freed itself, or will be mended by the last page of the range. |
| Ps64Freeing.FreeKeepsGroups | aub_mem_dump/aub_stream.cpp:123-278 | A free that runs to its end keeps every PS64 group whole or unmarked, wherever the range starts and ends. |
| Ps64Runs.RunKeepsGroups | aub_mem_dump/page_table_walker.cpp:279-330 | Over every history of such mappings, mapped frees, new trees and flag changes, marked entries come in whole groups of sixteen at every call boundary. |
| WalkShape.PageVisitShape | aub_mem_dump/page_table_walker.cpp:188-277 | Which slots a building visit fills, and its leaf's frame, bank and attributes, depend only on the planned page, the request and the page cloned, not on pending marks, sinks or other trees. |
| Lockstep.TwinsTranslateAlike | aub_mem_dump/aub_manager_imp.cpp:433-435 | Two trees with nodes alike at the same places translate every address alike. |
| Lockstep.WalkTwin | aub_mem_dump/page_table_walker.cpp:184-242 | A reserving walk and the clone of its pages, or two equal mapping walks, starting from alike trees and over whatever was mapped before, both complete and leave alike trees; the clone has a page for every turn. |
| Lockstep.CloneLandsExactly | aub_mem_dump/page_table_walker.cpp:236-242 | The clone of a page that got a frame of its own stands at the original's address if and only if that frame is aligned to the page size. |
| LockstepFree.FreeTwin | aub_mem_dump/aub_stream.cpp:123-278 | Frees of the same range in alike trees both run to their end or both stop early, and leave alike trees. |
| LockstepFree.WalkLeavesOthers | aub_mem_dump/page_table_walker.cpp:173-387 | A walk leaves all other trees as they were. |
| Tiles.FollowStep | aub_mem_dump/aub_manager_imp.cpp:433-435 | A follower tile's clone, map or free is legal, completes, and brings it to the leader's tree, whatever the streams are doing. |
| Tiles.CallKeepsTiles | aub_mem_dump/aub_manager_imp.cpp:422-436 | If a manager call is one tile 0 can make (its free, if it is one, takes no table's frame and gives back aligned blocks) then it is legal on all tiles, no clone indexes past the page list, and all tiles are alike again afterwards. |
| Tiles.ManagedTilesTranslateAlike | aub_mem_dump/aub_manager_imp.cpp:422-595 | After any sequence of `writeMemory2`, `mapGpuVa2` over anything, `freeMemory`, reservations of physical memory, and pause and block toggles, every tile translates every address alike. |
| Tiles.OwnFramesFreeAligned | aub_mem_dump/page_table.cpp:43-46 | A leaf that was never moved out of its frame gives back an aligned block. |
| Tiles.EmptyTilesOk | aub_mem_dump/aub_manager_imp.cpp:422-436 | Tiles holding only their roots satisfy the starting condition. |
| Rewalk.RewalkChangesNothing | aub_mem_dump/page_table_walker.cpp:200-346 | A second non-mapping walk inside a range already walked on a committed stream, without PS64 groups to check, completes, leaves tree, allocators and sinks as they are, emits no entry and reports what the tables say. |
| Rewalk.RepeatedWalkReportsTheSame | aub_mem_dump/page_table_walker.cpp:364-374 | In particular repeating a Reserve walk reports the same addresses, sizes and locality. |
| Walker.PageTableWalker.IsPs64GroupComplete | aub_mem_dump/page_table_walker.cpp:47-63 | The loop over the sixteen entries decides exactly the group condition. |
| Walker.PageTableWalker.UpgradeGroup | aub_mem_dump/page_table_walker.cpp:282-301 | The loop has the effect of the reference upgrade pass on tree, entry lists and pending lists. |
| Walker.PageTableWalker.DowngradeGroup | aub_mem_dump/page_table_walker.cpp:305-315 | The loop has the effect of the reference downgrade pass. |
| Walker.PageTableWalker.CheckPs64 | aub_mem_dump/page_table_walker.cpp:279-330 | The three-way PS64 branch has the reference effect, up to the entry still to be emitted. |
| Walker.PageTableWalker.AllocateLeaf | aub_mem_dump/page_table_walker.cpp:236-253 | A new leaf is cloned, placed at the given address or given a frame of its own, as in the reference. |
| Walker.PageTableWalker.Remap | aub_mem_dump/page_table_walker.cpp:264-277 | Address and bank are each overwritten only when different, and the result says whether anything changed. |
| Walker.PageTableWalker.Place | aub_mem_dump/page_table_walker.cpp:231-277 | Creating a missing child and remapping a leaf, with the 64KB system page list, equals the reference placement. |
| Walker.PageTableWalker.Stream | aub_mem_dump/page_table_walker.cpp:279-346 | The emission rules with `emittedPending` equal the reference visit. |
| Walker.PageTableWalker.VisitPage | aub_mem_dump/page_table_walker.cpp:173-352 | The descending level loop with its page-size and leaf-level changes equals the reference page visit, including where it breaks out. |
| Walker.PageTableWalker.WalkMemory | aub_mem_dump/page_table_walker.cpp:130-387 | The page loop over the mutable heap equals the reference walk that all lemmas above are about. |
| Walker.PageTableWalker.RecordPage | aub_mem_dump/page_table_walker.cpp:364-374 | The page record appended is the reference one. |
| AubStreamObjects.AubStream.constructor | aub_mem_dump/aub_shm_stream.h:144-147 | A new stream is committed and its sinks are empty. |
| AubStreamObjects.AubStream.PauseAubFileStream | aub_mem_dump/aub_tbx_stream.h:87-87 | Sets the pause flag of either combined stream and changes no sink. |
| AubStreamObjects.AubStream.BlockMemWritesViaTbxStream | aub_mem_dump/aub_shm_stream.h:86-86 | Sets the block flag and changes no sink. |
| AubStreamObjects.AubStream.ArePageTableWritesFullyCommitted | aub_mem_dump/aub_shm_stream.h:87-87 | Answers whether every sink is listening. |
| AubStreamObjects.AubStream.WriteDiscontiguousPages | aub_mem_dump/aub_shm_stream.h:128-135 | The sinks that are listening, and only they, take the entries in order. |
| AubStreamObjects.AubStream.WritePageWalkEntries | aub_mem_dump/aub_stream.cpp:312-339 | Streaming five levels and clearing pending nodes equals the reference commit. |
| AubStreamObjects.AubStream.FreeMemory | aub_mem_dump/aub_stream.cpp:123-278 | The free loop with its three entry lists equals the reference free; on an early return the sinks get nothing. |
| AubStreamObjects.AubStream.ClearLeaf | aub_mem_dump/aub_stream.cpp:175-210 | Clearing an entry, mending its PS64 group and deleting the page afterwards equals the reference, which deletes first. |
| AubStreamObjects.AubStream.ClearPage | aub_mem_dump/aub_stream.cpp:151-261 | One turn of the loop, small page or 2MB, equals the reference turn. |
| AubManagerObjects.AubManager.WalkAndWrite | aub_mem_dump/aub_stream.cpp:74-93 | Walk, then commit, is one step of the system model, and the pages returned are those of the walk. |
| AubManagerObjects.AubManager.WriteMemory2 | aub_mem_dump/aub_manager_imp.cpp:422-436 | The loop over the tiles runs exactly the call's operations and leaves all tiles alike. |
| AubManagerObjects.AubManager.MapGpuVa2 | aub_mem_dump/aub_manager_imp.cpp:587-595 | The loop over the tiles maps all of them to the same memory and leaves them alike. |
| AubManagerObjects.AubManager.FreeMemory | aub_mem_dump/aub_manager_imp.cpp:467-476 | The loop over the tiles frees the range in all of them and leaves them alike. |
| RingBuffer.SubmitKeepsValid | aub_mem_dump/hardware_context_imp.cpp:251-299 | Every submission smaller than the ring keeps the tail below the ring size and 8-byte aligned, stores fence value n as submission n, and harms no uncompleted submission. |
| RingBuffer.WritesMissUncompleted | aub_mem_dump/hardware_context_imp.cpp:266-296 | Both the no-op fill, written before the poll, and the commands, written after it, stay inside the ring and miss every byte of every uncompleted submission. |
| RingBuffer.RingStaysValid | aub_mem_dump/hardware_context_imp.cpp:251-299 | This holds over every interleaving of submissions and completions. |
| RingBuffer.FetchIsQueue | aub_mem_dump/hardware_context_imp.cpp:269-299 | What the consumer fetches from its head to the tail is the no-ops of the last lap and then the pending submissions in order, if and only if the tail has not come round to a head still in the last lap. |
| RingBuffer.ConsumerCanBeLapped | aub_mem_dump/hardware_context_imp.cpp:269-299 | Counterexample: four submissions after which the tail has passed a consumer that still stands before the no-op fill. |
| RingBuffer.HardwareContext.SubmitBatchBuffer | aub_mem_dump/hardware_context_imp.cpp:251-299 | The method on the ring array equals the reference submission, advances the fence by one and publishes the new tail. |
| RingBuffer.HardwareContext.WrapAround | aub_mem_dump/hardware_context_imp.cpp:269-285 | Fill to the end, start over at 0, wait: the ring array and counters are those of the reference wrap. |
| RingBuffer.HardwareContext.AppendCommands | aub_mem_dump/hardware_context_imp.cpp:287-299 | Commands go to the tail and nothing else in the ring changes. |
| Packets.RecordReads | aub_mem_dump/includes/aub_services.h:613-726 | Each record decodes to itself, and its length field alone tells where the next record starts. |
| Packets.SlotsRead | aub_mem_dump/includes/aub_services.h:712-715 | The address and size pairs, 12 bytes each, read back. |
| Packets.FileReads | aub_mem_dump/includes/aub_services.h:613-926 | A file of records splits uniquely by (dwordCount + 1) dwords and decodes to exactly those records, in order. |
| AubFile.ReplayGivesTrace | aub_mem_dump/includes/aub_services.h:613-926 | Replaying the decoded records gives the byte writes and the messages that were recorded, in order. |
| AubFile.FileReplays | aub_mem_dump/includes/aub_services.h:613-926 | Between calls the file replays to exactly the writes and messages of all calls so far, in the order of the calls, however messages were cut and padded. |
| AubFile.AubFileStream.AddComment | aub_mem_dump/aub_file_stream.cpp:32-65 | The records added decode to exactly one more message, the one given, after everything before it; only the last record is padded. |
| AubFile.AubFileStream.WriteContiguousPages | aub_mem_dump/aub_file_stream.cpp:279-320 | The chunks decode to the bytes at consecutive addresses in the given space; every length field fits 16 bits. |
| AubFile.AubFileStream.WriteDiscontiguousPages | aub_mem_dump/aub_file_stream.cpp:322-438 | The mix of pair tables and fallback writes decodes to exactly the in-order byte writes (address, byte, address space) of all entries, with at most 63 pairs and a 16-bit length equal to the record's dwords minus one, for every non-empty table whose sizes sum to the data. |
| AubFile.AubFileStream.Flush | aub_mem_dump/aub_file_stream.cpp:354-376 | A flushed pair table decodes to the writes of exactly the pending entries. |
| AubFile.AubFileStream.WriteTableEntries | aub_mem_dump/aub_file_stream.cpp:440-515 | Page-table entries decode to their eight bytes each, in order, for every table length including none and one. |
| EndToEnd.TranslateIsInjective | aub_mem_dump/page_table.cpp:15-25 | In reserve-only histories two different virtual bytes, of one address space or two, never share a physical byte. |
| EndToEnd.EntriesMissData | aub_mem_dump/page_table_walker.cpp:340-342 | No page-table entry a walk streams touches a mapped byte of any tree. |
| EndToEnd.WriteHolds | aub_mem_dump/aub_stream.cpp:74-93 | After `writeMemory` every byte of the data is where its virtual address now leads. |
| EndToEnd.LaterWriteKeeps | aub_mem_dump/aub_stream.cpp:74-93 | A later write to other addresses, of this tree or another, keeps the byte and its address, page-table writes included. |
| EndToEnd.ReadReturns | aub_mem_dump/aub_stream.cpp:39-44 | An Expect walk over mapped bytes reads back exactly what their places hold, with any page size and banks. |
| EndToEnd.ReadAfterWrite | aub_mem_dump/aub_stream.cpp:39-93 | `writeMemory`, then any sequence of `writeMemory` calls on other virtual bytes, then `readMemory` returns exactly the bytes first written, at the level of physical memory. |
| Shm4.Shm4Mapper.MapSystemMemory | aub_mem_dump/physical_address_allocator.cpp:110-128 | The table loop maps exactly the pages of the range, in the table of its memory kind only. |
| Shm4.Shm4Mapper.Translate | aub_mem_dump/physical_address_allocator.cpp:69-94 | The pointer is sound for every byte of `availableSize`, and if that is less than asked for, the next page is absent or not contiguous in host memory. |
| Shm4.MapPagesMoves | aub_mem_dump/physical_address_allocator.cpp:119-127 | Every byte of a mapped range lives at its offset from the host pointer and every other byte keeps its place. |
| Shm4.MappedRangeTranslates | aub_mem_dump/physical_address_allocator.cpp:69-128 | After a range is mapped, and any sequence of further mappings that miss this part of it, the part translates in full to its own bytes. |
| Shm4.TranslationDecides | aub_mem_dump/memcpy_s.h:13-24 | A translation is large enough for the copy that follows if and only if one stretch of host memory backs the whole range. |
| HostMemory.CopyMirrors | aub_mem_dump/tbx_shm_stream.cpp:161-175 | One translation and one copy to host memory is a store to the physical bytes, and disturbs no other physical byte. |
| HostMemory.TbxShmStream.WriteDiscontiguousPages | aub_mem_dump/tbx_shm_stream.cpp:161-175 | For every table and every state of the translation tables, the page loop copies each page's data if one stretch of host memory backs it, and drops it otherwise. |
| HostMemory.TbxShmStream.WriteTableEntries | aub_mem_dump/tbx_shm_stream.cpp:177-192 | The loop over page-table entries does the same, entry by entry. |
| HostMemory.TbxShmStream.ReadDiscontiguousPages | aub_mem_dump/tbx_shm_stream.cpp:72-83 | Each page of the caller's buffer gets the host bytes behind it if one stretch backs the page, and keeps what it held otherwise. |
| HostMemory.TbxShmStream.CopyChecked | aub_mem_dump/memcpy_s.h:13-24 | Nothing is copied when the destination is missing or too small. |
| HostMemory.PagesInUse | aub_mem_dump/tbx_shm_stream.cpp:72-83 | Each page a walk reports lies inside one block in use, so that one translation covers it. |
| HostMemory.EntryInUse | aub_mem_dump/tbx_shm_stream.cpp:181-186 | Each page-table entry lies inside one block in use too. |
| HostMemory.ReserveStaysBacked | aub_mem_dump/physical_address_allocator.cpp:104-108 | Reserving and mapping a block keeps every block in use backed by host memory of its own, the new one included, and every byte written so far in its host byte. |
| HostMemory.ReservedReachableExactly | aub_mem_dump/physical_address_allocator.cpp:104-108 | A reserved block is backed in the table its pages are looked up in if and only if its bank is the main one or there are local allocators. |
| HostMemory.LocalPageIsLost | aub_mem_dump/physical_address_allocator.cpp:104-108 | Counterexample: with one allocator and a page of bank 1, a write to the page is dropped and a read leaves the buffer as it was, while the page is backed in the system table. |
| SharedMemory.ServeStaysBacked | aub_mem_dump/physical_address_allocator.cpp:104-128 | This holds over all the reservations of a walk, in order, with the translation tables threaded through them. |
| SharedMemory.WriteFollows | aub_mem_dump/aub_stream.cpp:74-93 | A whole `writeMemory` over shared memory, its reservations, table entries and data, does to host memory what it does to physical memory. |
| SharedMemory.ShmReadAfterWrite | aub_mem_dump/tbx_shm_stream.cpp:72-192 | `writeMemory`, then any sequence of `writeMemory` calls on other virtual bytes, then `readMemory`, all through the translation tables and host bytes, returns exactly the bytes first written, whatever host memory and the buffer held before. |
| SharedMemory.FreshPicksExist | aub_mem_dump/physical_address_allocator.cpp:111-116 | A host allocator that never hands out a byte twice, which that theorem assumes, exists. |
| SharedMemory.NewManagerPrepared | aub_mem_dump/physical_address_allocator.cpp:13-23 | A new manager's state satisfies what that theorem asks, whatever host memory holds. |
| SharedMemory.NewTreeFollows | aub_mem_dump/page_table.cpp:15-25 | Creating an address space keeps it: its root's frame is mapped and nothing written before moves. |
| Ggtt.PageSizeDoesNotMatter | aub_mem_dump/page_table_walker.cpp:75-80 | A 4KB page always says what its entry says, and with whole 64KB blocks reading a page through its first entry gives every byte the address its own entry gives, or a hole for both. |
| Ggtt.FillKeepsBlocks | aub_mem_dump/page_table_walker.cpp:87-112 | Adding a 64KB page keeps every aligned block of sixteen entries wholly absent or contiguous, and changes no entry. |
| Ggtt.LargePageExactly | aub_mem_dump/page_table_walker.cpp:75-80 | A 64KB page read through its first entry agrees with its 4KB entries on every byte if and only if its block is whole. |
| Ggtt.SmallThenLargeDisagrees | aub_mem_dump/page_table_walker.cpp:75-112 | Counterexample: after a 4KB page is made by itself, a 64KB look reports a whole page though fifteen of its entries are missing. |
| Ggtt.GttWalker.AllocateChild | aub_mem_dump/page_table_walker.cpp:87-112 | For either page size, the first entry and the loop over the others put and queue exactly the entries of one frame. |
| Ggtt.GttWalker.WalkMemory | aub_mem_dump/page_table_walker.cpp:75-127 | For 4KB and 64KB pages, making pages or only looking, on any table, the loop equals the reference walk. |
| Ggtt.WalkReports | aub_mem_dump/page_table_walker.cpp:75-127 | A 4KB walk on any table, or a 64KB walk on whole blocks, reports for every byte what the table it leaves says; a look stops exactly at the first hole, and any other walk covers its range. |
| Ggtt.WalkStreamsTable | aub_mem_dump/page_table_walker.cpp:91-112 | Whatever the page sizes, the entries queued, replayed in order, rebuild the table. |
| Ggtt.GranularitiesAgree | aub_mem_dump/aub_stream.cpp:21-31 | After a 64KB walk over a range and any number of further 64KB walks, a 4KB Expect walk over any part of the range runs to its end, changes nothing, and reports for every byte the place the first walk reported. |
| EntryBits.LeafValueReads | aub_mem_dump/page_table.cpp:27-41 | Whatever bits a GPU adds outside the address and PS64 bits, the address, PS64 mark and the GPU's other bits of a leaf can be read back from its 64-bit value; that it is local or large, unless an added bit says so too. |
| EntryBits.PageSizeReadsExactly | aub_mem_dump/page_table.cpp:27-41 | The page size can be read back from leaf entries if and only if bit 7 is not one of the bits the GPU adds. |
| EntryBits.ExtraBitsFit | aub_mem_dump/xe3_core/command_streamer_helper_xe3_core.cpp:360-370 | Every GPU's added bits stay out of the address, PS64 and local-memory bits; they meet bit 7 exactly for uncached compressed pages of Xe2, Xe3 and Xe3p. |
| EntryBits.SmallLooksLarge | aub_mem_dump/xe3_core/command_streamer_helper_xe3_core.h:26-33 | Counterexample: there, a 4KB and a 2MB leaf at one address have the same value. |
| EntryBits.LeafValueInjective | aub_mem_dump/page_table.cpp:27-41 | Two leaves of one GPU with the same entry value have the same address, memory kind and PS64 mark, on Xe2 and later the same attributes, and the same size except for uncached compressed pages of those families. |
| EntryBits.TableValueReads | aub_mem_dump/page_table.h:188-252 | A table entry's value gives back its address and whether it is a 64KB PTE, in the legacy format too. |
| EntryBits.PdeSlotReads | aub_mem_dump/page_table.cpp:35-41 | In a PDE slot bit 7 always tells a 2MB page from a table, whatever bits the GPU adds. |
| EntryBits.FlagsByExclusiveOr | aub_mem_dump/page_table_walker.cpp:40-42 | The exclusive-or trick of `ps64EntryFlags` yields the entry of the same leaf unmarked at address 0, whatever the GPU adds, bit 7 included. |
| EntryBits.FlagsCompareExactly | aub_mem_dump/page_table_walker.cpp:52-60 | Comparing those flags compares memory kind and added bits, for every GPU. |
| EntryBits.ClearedIsAbsent | aub_mem_dump/aub_stream.cpp:180-182 | The zero streamed for a cleared entry is the value of no leaf. |

## Left out

- Word sizes: addresses, sizes, fences and fills are unbounded; wrap-around at the top of the 64-bit space, of the 32-bit fence and in the look-ahead's subtraction is not modelled.
- Pointers: nodes live in a heap indexed by slot, so two slots never alias one node and a deleted node cannot be reached.
- `PDP4` roots: three-level trees, whose four children are preinstalled and whose root has no frame, are not modelled.
- Page-size support: the hardware check that lowers 2MB to 64KB is taken as applied before the walk.
- Clone lists: indexing past the source's pages, undefined in the program, ends the modelled walk as `Overrun`; `Tiles.CallKeepsTiles` shows that it does not happen.
- Entry values: the stream model keeps entries as records of address and flags; `EntryBits` covers their 64-bit values on bit vectors, and the two are not linked inside the stream model.
- Address spaces: the stream model tells local and non-local memory apart, as the simulators do; `AddressSpaces` covers the legacy page-table spaces of a trace one list at a time, and the AUB file model keeps the number it is given.
- Streams: the stream classes and their inheritance are one class with a kind; a sink is what it has been given, without files, sockets, logs or flushing.
- Writes: `AubFile` takes every record as written; file errors and fallback are not modelled.
- Memory-bank masks with bit 31 set and colour size 0: the program's scan does not end on the first and divides by zero on the second.
- RunKeepsConsistent: covers frees of mapped ranges while every sink listens, that take no table's frame; `FreeFacts` and `FreeResults` say exactly what the other frees do to frames and sinks, and frees over holes, which return early and stream nothing, are in `RunKeepsOwners`, `FreeModel` and `AubStreamObjects`.
- ManagedTilesTranslateAlike: a free may not take a table's frame nor give back a misaligned 64KB or 2MB block, which only a page that was mapped over while it owned a frame can do; reads are not among the calls.
- MappingKeepsGroupsExactly: covers page-aligned 4KB mappings with uniform parameters; Reserve, Clone and Expect walks with a 4KB page size also run the look-ahead and are not covered, because an Expect walk can mark an entry and stream nothing.
- RunKeepsGroups: covers histories of 4KB mappings from 64KB boundaries with one set of attributes, frees, new trees and flags; 64KB and 2MB requests over marked groups are not in it.
- RewalkChangesNothing: covers walks without PS64 groups to check.
- ReadAfterWrite: covers reserve-only histories, as mapped and cloned pages share frames on purpose, on a stream that listens, and takes the encoding of an entry as any function to eight bytes.
- ShmReadAfterWrite: the same histories; it asks each write for the main bank or for local allocators to exist, the exact condition for its pages to be reachable.
- FetchIsQueue: the consumer's pace is any interleaving of completions; how it fetches inside a submission, ring-head overrides, the LRCA image and engine-specific flush contents are not modelled.
- HostMemory: host pointers are naturals and `aligned_alloc` returns ranges not used before; freeing does nothing in this mode, as in the program; reserving space without mapping it and mapping memory the caller provides are single calls of the mapper here.
- GttWalker.WalkMemory: addresses stay below 4GB; the valid and local bits of global entries and the per-bank table offset are not modelled.
- Other records: register writes, polls, expects, dumps and context records are single fixed layouts and not modelled.
- The rest of the program: settings, MMIO and engine tables, PAT bits, context groups, TBX sockets, polling delays and mutexes are wiring around the modelled core; methods are atomic here.
