# Page tables, frames and TLBs of RincOS: a Dafny model

This project models the memory manager of RincOS and proves properties of it.

- `arch/x86_64/src/mmu.rs` edits four-level page tables (section 4.5 of the Intel SDM,
  Volume 3A): 512-word tables in raw physical frames, one tree per address space, the
  upper half of the root inherited from the kernel.
- `kernel/src/svc/vm.rs` supplies the frames: a cursor over the boot memory map and a
  stack of at most 128 returned frames.
- TLBs (section 4.10.4.1 of the same volume) are kept in step by local flushes, CR3
  reloads and a shootdown interrupt (`arch/x86_64/src/apic.rs`,
  `arch/x86_64/src/interrupts/mod.rs`).
- `crates/bootloader/limine/src/lib.rs` keeps boot strings in a small arena and
  resolves pointers to them.

## Layout

| file | content |
|---|---|
| `Pte.dfy` | words, flags, indices, canonical addresses; decoding of words into entries |
| `AddressBits.dfy` | 64-bit numbers as bit patterns |
| `FrameSupply.dfy`, `FrameCursor.dfy`, `BootPtAlloc.dfy` | the allocator: abstractly, its cursor, and the class with the array |
| `PageTree.dfy`, `TableEdits.dfy` | trees of tables, who owns which table, the two kinds of write |
| `PageMapper.dfy`, `Views.dfy` | `ensure_table`, map, unmap, protect; address spaces as maps |
| `Creation.dfy`, `Teardown.dfy`, `Slots.dfy` | new roots, the destruction order, the handle table |
| `Machine.dfy`, `Boot.dfy`, `Runs.dfy` | the whole state, its invariant, where it starts, and runs |
| `Isolation.dfy`, `Translation.dfy`, `RegionCount.dfy`, `AccessRights.dfy` | what spaces can do to each other, what `translate` answers, how many tables there are, what the processor lets be done with a page |
| `HardwareBits.dfy` | accessed and dirty bits, set by the processor at any time |
| `Accounting.dfy` | when memory runs out, and when a frame is lost for good |
| `Scenarios.dfy`, `Witnesses.dfy` | losing runs, closed pages and stale caches from any state, and on one concrete machine |
| `Tlb.dfy` | several processors, cached translations, shootdown |
| `PhysicalMemory.dfy`, `X86Mmu.dfy` | the code in place: raw words, arrays, loops, each method proved to take the abstract step |
| `BootStrings.dfy` | the string arena and string views |

The classes work on 64-bit words.  Everything else works on decoded entries, and
`Pte.DecodeInjective` says that decoding loses nothing.  Ownership is a map beside the
memory: each table frame has one node that names its root, its parent and the indices
leading to it.  The predicate `PageTree.Tree` ties that map to the memory, and
`Machine.Inv` adds the allocator's books and the slot table.

## Assumptions

These are stated as hypotheses because the code does not establish them.

- Boot tables (`Boot.BootEstablishesInv`): the tables under the boot CR3 form a proper
  tree, and the memory map does not offer their frames.  `is_usable` accepts
  bootloader-reclaimable memory, so this is up to the boot loader.
- Memory map (`Boot.BootEstablishesInv`): no page lies in two usable entries, and usable
  entries end below 2^52.  The statements about the cursor and about the classes
  `BootPtAlloc` and `X86Mmu` need no such hypothesis: they cover maps that overflow,
  block or wrap.
- Large pages: the walks treat a present entry with the PS bit as a link.  An operation
  is `Machine.Allowed` only on a path without such entries.  In the lower half of a
  created space there are none (`Machine.LowerHalfAllowed`).
  `Isolation.LargePageBreaksIsolation` says what happens otherwise, and
  `Witnesses.IsolationBroken` gives an input.
- Callers pass live handles, and a space that is active on some processor is not destroyed.
- Only the modelled code writes to table frames, and the processor, which may set
  accessed and dirty bits in entries it walks at any time.  `HardwareBits` shows that
  these bits change nothing else: every run with them ends where the run without them
  ends, those bits excepted.  Statements that call two words the same are about runs
  without them; `HardwareBits.SharingPersistsMarked` is the form of sharing with them.
- TLB statements are about non-GLOBAL bindings and compare entries up to accessed and
  dirty bits; `Tlb.OnlyGlobalSurvives` says exactly what a shootdown leaves behind.

## Findings

- The cursor stops for ever at a usable entry whose end does not fit 64 bits, or that
  reaches the last page, and never reaches the entries behind it
  (`FrameCursor.OverflowStarves`; exact condition in `FrameCursor.ExhaustiveIff`).
- With a base inside the last page, `align_up` wraps and page 0 is handed out on every
  call (`FrameCursor.WrapRepeatsZero`).  The calls come to an end if and only if every such
  entry lies behind one the cursor cannot leave (`FrameCursor.EndsIff`).  A build with
  overflow checks panics there instead.
- `map_4k` cuts the physical address to 52 bits without an error; the page translates to
  the address given if and only if that is below 2^52 (`Translation.MappedTranslates`;
  input in `Witnesses.AddressCut`).
- A USER mapping is usable from user mode if and only if the tables already on its path
  have the user bit (`AccessRights.MapPermits`, `AccessRights.KernelFirstHidesUser`;
  input in `Witnesses.UserMapUnreachable`).  `protect_4k` cannot open them either
  (`AccessRights.ProtectPermits`).
- Frames are lost for good in three cases and no others (`Accounting.StepLosesIff`): a
  space is created while all slots are taken (input: `Witnesses.RootLost`); a destroyed
  space has more lower-half tables than the stack of 128 has room for
  (`kernel/src/svc/vm.rs:107-112`; input: `Witnesses.TablesLost`); a destroyed space links
  an upper-half table that the kernel root does not link there (input:
  `Witnesses.FramesLost`).  `Accounting.LosesByRegions` puts the number of tables in terms
  of the regions ever mapped.
- `phys_available` gives up at the first overflowing entry even if a later entry covers
  the address (`StringViews.OverflowHides`; exact condition in `StringViews.HiddenIff`).
- Nothing in the repository calls `shootdown_tlb_page` or `shootdown_tlb_all`;
  `unmap_4k` and `protect_4k` of the VM service (`kernel/src/svc/vm.rs:157-167`) flush
  locally only.  So the hypothesis of `Tlb.ShootdownSafety`, that a shootdown was sent, is
  never met by the kernel's own runs on several processors.  A processor that walked to
  the page before is left stale if and only if the space it runs shares the table of the
  page and, for a protect, the flags change something (`Tlb.StaleWithoutShootdown`,
  `Tlb.StaleAfterProtect`; inputs in `Witnesses.StaleAfterUnmap` and
  `Witnesses.StaleAfterReadOnly`, both with a kernel page and a processor on another space).
- A shootdown does not reach GLOBAL bindings: after unmap, shootdown and delivery a
  processor still caches the page if and only if it cached it GLOBAL
  (`Tlb.OnlyGlobalSurvives`).

## Model

| member | source | states |
|---|---|---|
| Pte.DecodeInjective | arch/x86_64/src/mmu.rs:36-45 | Two words with the same decoded frame, attribute bits and remaining bits are the same word |
| Pte.FlagsDecode | arch/x86_64/src/mmu.rs:226-249 | `flags_to_pte` sets exactly the bits its mapping intent names (NX only without EXEC and with NXE on), and no address bit |
| Pte.LeafDecode | arch/x86_64/src/mmu.rs:468 | The stored leaf word decodes to the masked frame and the intent; the two parts do not interfere |
| Pte.TableDecode | arch/x86_64/src/mmu.rs:275-280 | The stored table word decodes to a present, writable, not large link with the user bit as asked |
| Pte.LeafByBit | arch/x86_64/src/mmu.rs:226-249 | A word is the one `map_4k` and `protect_4k` store if and only if, for all flags, its bits are: frame in 12 to 51, present, writable as flag bit 1, user as flag bit 3, bits 3 and 4 as flag bit 5, bit 8 as flag bit 4, bit 63 if flag bit 2 is clear and NXE on, all others 0 |
| Pte.LinkByBit | arch/x86_64/src/mmu.rs:275-280 | A word is the one `ensure_table` stores if and only if its bits are: frame in 12 to 51, present, writable, user as asked, all others 0 |
| Pte.DecodeByBit | arch/x86_64/src/mmu.rs:36-45 | The fields of a decoded word by bit position |
| Pte.CanonicalRange | arch/x86_64/src/mmu.rs:99-108 | An address is canonical if and only if it is below 2^47 or at least 2^64 - 2^47 |
| Pte.AlignedFrameFits | arch/x86_64/src/mmu.rs:36 | An aligned address survives the address mask if and only if it is below 2^52 |
| Pte.PageAddressBijection | arch/x86_64/src/mmu.rs:100-126 | Canonical page-aligned addresses and quadruples of 9-bit indices correspond one to one |
| Pte.PrefixIsRegion | arch/x86_64/src/mmu.rs:111-126 | Sharing the first one, two or three indices is lying in the same 512 GiB, 1 GiB or 2 MiB region |
| Pte.LowerHalf | arch/x86_64/src/mmu.rs:34 | A canonical address has root index below 256 if and only if it is below 2^47 |
| AddressBits.ToBitsValue | crates/hal/src/mmu.rs:4-6 | The bit pattern of a 64-bit number has that number as its value |
| AddressBits.AlignedIsFrame | arch/x86_64/src/mmu.rs:36 | A page-aligned number below 2^52 passes the address mask unchanged |
| FrameSupply.AllocKeepsPartition | kernel/src/svc/vm.rs:95-105 | Allocation keeps held, stacked, pending and dropped frames a partition, hands out a frame nobody held, and fails only when all frames are held or dropped |
| FrameSupply.FreeAllKeepsPartition | kernel/src/svc/vm.rs:107-112 | Returning a batch pushes as many as fit, in order, drops exactly the rest, and keeps the partition |
| FrameSupply.ConservationOverRuns | kernel/src/svc/vm.rs:94-113 | Over every run of a client that returns only what it holds, the four groups of frames partition the initial supply |
| FrameSupply.LastInFirstOut | kernel/src/svc/vm.rs:95-112 | A frame returned while fewer than 128 are stacked is the next one handed out, and the supply is then as before; at 128 it is gone |
| FrameSupply.ReturnedInReverse | kernel/src/svc/vm.rs:95-112 | A batch that fits comes back in reverse order, and then the supply is as it was |
| FrameCursor.NextIsHead | kernel/src/svc/vm.rs:55-84 | On every map, one call hands out the head of the list of frames to come and leaves its tail; with the list empty it stays empty and the answer is None, or page 0 if an entry that wraps is ahead |
| FrameCursor.NthCall | kernel/src/svc/vm.rs:55-84 | On every map, the n-th call yields the n-th frame of the list, and every call after its end yields None, or page 0 if an entry that wraps is ahead |
| FrameCursor.EndsIff | kernel/src/svc/vm.rs:66-72 | The calls ever answer None if and only if every entry whose rounding wraps lies behind an entry the cursor cannot leave |
| FrameCursor.HandedOutExact | kernel/src/svc/vm.rs:55-84 | The pages ever handed out are those on the list, and page 0 if an entry that wraps is ahead |
| FrameCursor.PendingExact | kernel/src/svc/vm.rs:55-84 | The list holds exactly the 4096-byte pages wholly inside an entry of type Usable or BootloaderReclaimable that the cursor can get to |
| FrameCursor.NothingElseOffered | kernel/src/svc/vm.rs:173-175 | Without an entry of one of those two types every call answers None |
| FrameCursor.OneEntryOffered | kernel/src/svc/vm.rs:55-84 | A map of one such entry is handed out page by page from the bottom, and then None |
| FrameCursor.InMapOrder | kernel/src/svc/vm.rs:55-84 | Pages are handed out entry by entry, and within an entry from the bottom |
| FrameCursor.PendingDifferent | kernel/src/svc/vm.rs:55-84 | On disjoint entries no page is listed twice |
| FrameCursor.ExhaustiveIff | kernel/src/svc/vm.rs:64-77 | On disjoint entries every page of every usable entry is handed out if and only if no entry with room for a page overflows or lies behind an entry the cursor cannot leave, page 0 of a map that wraps excepted |
| FrameCursor.OverflowStarves | kernel/src/svc/vm.rs:65 | A concrete map on which an overflowing entry hides a usable page |
| FrameCursor.WrapRepeatsZero | kernel/src/svc/vm.rs:177-180 | A concrete map on which rounding up wraps and every call hands out page 0, which is not usable |
| BootAllocator.InitialSupply | kernel/src/svc/vm.rs:23-43 | On a disjoint map below 2^52 the allocator starts with exactly the usable pages, once each, as valid frame addresses |
| BootAllocator.BootPtAlloc.NextFromMap | kernel/src/svc/vm.rs:55-84 | The loop over entries computes the cursor step and its result |
| BootAllocator.BootPtAlloc.AllocFrame4K | kernel/src/svc/vm.rs:95-105 | On every map: pops the stack or advances the cursor, as the abstract supply does, which hands out page 0 once both are empty and an entry that wraps is ahead; zeroes every word of the frame and no other |
| BootAllocator.BootPtAlloc.FreeFrame4K | kernel/src/svc/vm.rs:107-112 | Pushes onto the array stack, or drops the frame when 128 are stacked |
| PageTree.WalkOwned | arch/x86_64/src/mmu.rs:251-283 | A table reached by a walk is owned, sits at the depth and indices walked, and belongs to the walked root or is shared with the kernel |
| PageTree.NodeReached | arch/x86_64/src/mmu.rs:258-283 | Every owned table is reached along the path recorded for it |
| PageTree.OnePath | arch/x86_64/src/mmu.rs:258-283 | One table reached along two walks means same depth, same indices, and same root unless it is a shared upper-half table |
| TableEdits.LinkKeepsTree | arch/x86_64/src/mmu.rs:270-282 | Hanging a zeroed unowned frame under an absent entry keeps the tree invariant |
| TableEdits.LinkKeepsLeaf | arch/x86_64/src/mmu.rs:270-282 | Linking a fresh table changes no binding of any live space |
| TableEdits.LeafWriteEffect | arch/x86_64/src/mmu.rs:464-468 | A last-level write rebinds the one page it stands for in the spaces that reach the table, and nothing else |
| PageMapper.EnsurePathGrows | arch/x86_64/src/mmu.rs:450-460 | The three descents keep all books balanced and all bindings and links, reach the last-level table or run out of memory only when no frame is left |
| PageMapper.EnsurePathFinds | arch/x86_64/src/mmu.rs:264-268 | With the last-level table present the descents change nothing and find it |
| Views.WalkIsLeaf | arch/x86_64/src/mmu.rs:486-510 | On a path without large pages the code's walk succeeds exactly on bound pages and finds their word |
| Views.MapRefinesUpdate | arch/x86_64/src/mmu.rs:450-469 | Mapping refuses exactly bound pages and then changes nothing; out of memory changes no binding; success adds one binding and overrides none |
| Views.UnmapRefinesUpdate | arch/x86_64/src/mmu.rs:486-513 | Unmapping succeeds exactly on bound pages and removes exactly that binding |
| Views.ProtectRefinesUpdate | arch/x86_64/src/mmu.rs:532-560 | Protecting succeeds exactly on bound pages, keeps the frame and replaces the attributes of that binding only |
| Creation.NewRootKeepsTree | arch/x86_64/src/mmu.rs:364-373 | A new root joins the forest and keeps the tree invariant |
| Creation.NewSpaceInherits | arch/x86_64/src/mmu.rs:364-373 | A new space binds nothing in the lower half and exactly the kernel's pages in the upper half |
| Teardown.DestroyExact | arch/x86_64/src/mmu.rs:391-426 | The destruction order holds the root and every lower-half table of the space once each and nothing else |
| Teardown.DestroyInPostOrder | arch/x86_64/src/mmu.rs:391-426 | Every table is returned after all tables under it, subtrees in index order, the root last |
| Slots.FirstUnused | arch/x86_64/src/mmu.rs:287-295 | Finds the first unused slot, or all slots are used |
| Slots.SlotOf | arch/x86_64/src/mmu.rs:303-308 | Finds the first used slot with the handle, or there is none |
| Slots.AllocSlotExact | arch/x86_64/src/mmu.rs:285-298 | Slot allocation fails exactly when all 64 are live, and otherwise returns a handle nobody holds and disturbs no other |
| Slots.FreeSlotExact | arch/x86_64/src/mmu.rs:300-310 | Releasing a live handle frees its own slot and no other |
| Slots.HandleStable | arch/x86_64/src/mmu.rs:285-325 | Over every run that does not release it, a live handle stays live and resolves to the root it was created with |
| Machine.LowerHalfAllowed | arch/x86_64/src/mmu.rs:431-563 | Every lower-half address of a created space is free of large pages, so every edit there is allowed |
| Machine.NewSpaceExact | arch/x86_64/src/mmu.rs:353-377 | Creation succeeds if and only if a frame is left and one of the 64 slots is unused; the handle was not live and is, with an unused frame as its root; failure is out of memory; no other handle changes |
| Machine.NewKeepsInv | arch/x86_64/src/mmu.rs:353-377 | Creating a space keeps the invariant and all bindings; with all slots taken the fresh frame is booked as dropped |
| Machine.DestroyKeepsInv | arch/x86_64/src/mmu.rs:379-429 | Destroying a space keeps the invariant: its tables leave the forest, the lower-half ones go back to the supply, private upper ones are dropped |
| Machine.StepKeepsInv | arch/x86_64/src/mmu.rs:353-563 | Every operation, whatever its outcome, keeps the invariant, all tables and all links above the last level |
| Boot.BootEstablishesInv | kernel/src/svc/vm.rs:117-130 | Under the stated assumptions about the boot loader the invariant holds at the start |
| Boot.Init | kernel/src/svc/vm.rs:117-130 | Refuses a CR3 of 0; otherwise the allocator and memory manager built over the memory map stand in the boot state, and in the invariant if the boot loader kept to the assumptions |
| Boot.Perform | kernel/src/svc/vm.rs:132-167 | Every call of the VM service takes the raw state through the abstract step, and an allowed one keeps the invariant of the raw state |
| Boot.ReachableFromBoot | kernel/src/svc/vm.rs:117-167 | From boot on, the invariant holds in every state the VM service can reach |
| Runs.RunKeepsInv | arch/x86_64/src/mmu.rs:353-563 | The invariant holds in every reachable state |
| Runs.EveryTableOnce | arch/x86_64/src/mmu.rs:258-283 | In every reachable state a lower-half table is reached by one space along one path, and is neither stacked nor pending in the allocator |
| Runs.TablesSurvive | arch/x86_64/src/mmu.rs:264-282 | Once the table of a 2 MiB region exists, no map in the region runs out of memory or takes a frame while the space lives |
| Runs.MappedRegionHasTable | arch/x86_64/src/mmu.rs:459-468 | A successful map leaves the table of its region in place |
| Runs.SharingPersists | arch/x86_64/src/mmu.rs:353-377 | A kernel entry at index 256 or above present at creation stays the same word in both roots for the life of the space, so both bind and walk every page under it alike |
| Runs.DestroyReturns | arch/x86_64/src/mmu.rs:379-429 | Destruction does nothing for the kernel handle; otherwise it returns each table once and none that another live space reaches |
| Isolation.TranslateReadsView | arch/x86_64/src/mmu.rs:565-604 | `translate` answers the bound frame with the page offset, or not mapped |
| Isolation.TranslateInvalid | arch/x86_64/src/mmu.rs:570-572 | `translate` answers invalid address if and only if the address lies between the canonical halves |
| Isolation.EditRefinesUpdate | arch/x86_64/src/mmu.rs:431-563 | Map, unmap and protect, on all arguments, are the intended updates of all spaces' maps with the intended result codes: success leaves the last-level table in place and the page bound as asked; failure rebinds nothing and, out of memory aside, changes nothing |
| Isolation.TranslationIsolated | arch/x86_64/src/mmu.rs:431-563 | A lower-half edit of one space changes no translation of any other live space or of the kernel |
| Isolation.FailedMapIsInvisible | arch/x86_64/src/mmu.rs:439-468 | A failed map changes no translation of any space, even when memory ran out half way |
| Isolation.LargePageBreaksIsolation | arch/x86_64/src/mmu.rs:581-593 | Where a large page of the kernel lies over the root of a space, the first map in a 512 GiB region of that space makes a kernel address translate that did not |
| Witnesses.IsolationBroken | arch/x86_64/src/mmu.rs:581-593 | A concrete state, map and kernel address for which that happens |
| Translation.OffsetLaw | arch/x86_64/src/mmu.rs:600-602 | Translating page plus offset is translating the page and adding the offset |
| Translation.MappedTranslates | arch/x86_64/src/mmu.rs:431-474 | After a successful map the page translates to the masked address, which is the one given if and only if that is below 2^52 |
| Witnesses.AddressCut | arch/x86_64/src/mmu.rs:468 | A concrete map to 2^52 that succeeds and translates to 0 |
| Translation.UnmappedFaults | arch/x86_64/src/mmu.rs:476-516 | After a successful unmap the page is not mapped |
| Translation.MapUnmapRestores | arch/x86_64/src/mmu.rs:431-516 | Map followed by unmap succeeds and restores the map of every live space |
| RegionCount.TableCount | arch/x86_64/src/mmu.rs:258-283 | Without out-of-memory, a space owns its root plus one table per distinct 512 GiB, 1 GiB and 2 MiB region ever mapped in its lower half |
| AccessRights.LowerLinksOpen | arch/x86_64/src/mmu.rs:275-280 | In every reachable state every link on the way to a lower-half page of a created space is writable and executable |
| AccessRights.MappedRights | arch/x86_64/src/mmu.rs:431-474 | After a map the processor allows writing, execution and user access if and only if bit 1, bit 2 (or NXE off) and bit 3 of the flags say so and the links already on the path allow it |
| AccessRights.LowerMapRights | arch/x86_64/src/mmu.rs:431-474 | In the lower half of a created space the flags alone decide on writing and execution |
| AccessRights.ProtectedRights | arch/x86_64/src/mmu.rs:518-563 | The same as for a map, after a protect |
| AccessRights.MapPermits | arch/x86_64/src/mmu.rs:264-280 | A map gives the right to write, execute or access from user mode if and only if its entry and the links already on its path do |
| AccessRights.KernelFirstHidesUser | arch/x86_64/src/mmu.rs:264-280 | After a map without USER has made a table of the region, a USER map of any other page there succeeds, binds it, and is not reachable |
| AccessRights.ProtectPermits | arch/x86_64/src/mmu.rs:532-560 | A protect gives a right if and only if the new attributes and all links on the path do |
| Witnesses.UserMapUnreachable | arch/x86_64/src/mmu.rs:264-280 | Two concrete maps, the second with USER and successful, that leave its page unreachable |
| Accounting.MapRunsOutIff | arch/x86_64/src/mmu.rs:257-283 | A map runs out of memory if and only if the supply has fewer frames than tables are missing on the path; otherwise it takes exactly that many |
| Accounting.PrivateUpperIff | arch/x86_64/src/mmu.rs:364-373 | A space owns upper-half tables if and only if its root links a table there that the kernel root does not link |
| Accounting.StepLosesIff | arch/x86_64/src/mmu.rs:353-429 | A step loses a frame if and only if it creates a space with all slots taken, or destroys one whose lower-half tables overflow the stack or that forks the upper half |
| Accounting.RunLosesIff | arch/x86_64/src/mmu.rs:353-429 | A run loses a frame if and only if one of its steps is such a step |
| Accounting.LosesByRegions | arch/x86_64/src/mmu.rs:391-426 | After any run from creation without out-of-memory, destroying the space loses frames if and only if the stack has no room for the root and one table per distinct 512 GiB, 1 GiB and 2 MiB region ever mapped, or the space forks the upper half |
| Scenarios.SlotsRunOut | arch/x86_64/src/mmu.rs:285-298 | From any state without spaces and with frames enough, creating 65 spaces fails on the last and loses a frame |
| Scenarios.StackOverflows | kernel/src/svc/vm.rs:107-112 | From any state, mapping pages in more than 128 distinct 2 MiB regions of a space and destroying it loses frames |
| Accounting.ForkedHalfIsLost | arch/x86_64/src/mmu.rs:391-426 | A space that mapped a page under an upper-half entry it did not inherit loses tables when it is destroyed, whatever happened in between |
| Witnesses.FramesLost | arch/x86_64/src/mmu.rs:391-426 | A concrete run of create, map and destroy that loses frames |
| Witnesses.RootLost | arch/x86_64/src/mmu.rs:375-377 | A concrete run of 65 creations that loses a frame |
| Witnesses.TablesLost | kernel/src/svc/vm.rs:107-112 | A concrete run of 129 maps and a destroy that loses frames |
| HardwareBits.TouchedDecodes | arch/x86_64/src/mmu.rs:36-45 | Setting accessed and dirty bits in a word changes none of the bits the code looks at |
| HardwareBits.HardwareBitsInvisible | arch/x86_64/src/mmu.rs:353-563 | A run in which the processor sets accessed and dirty bits anywhere, at any time, ends in the state of the operations alone, those bits excepted |
| HardwareBits.MarkedRunKeepsInv | arch/x86_64/src/mmu.rs:353-604 | The invariant holds in every state of such a run, and every address translates as without the bits |
| HardwareBits.SharingPersistsMarked | arch/x86_64/src/mmu.rs:353-377 | In such runs an inherited kernel link keeps naming the same table in both roots, and both walk alike behind it |
| Tlb.EditChangesOnePage | arch/x86_64/src/mmu.rs:431-563 | An edit changes the walk of its own page at most, and a map never replaces a binding |
| Tlb.NextKeepsCoherent | arch/x86_64/src/mmu.rs:606-638 | Every step of every processor keeps each stale non-GLOBAL binding excused by a pending shootdown or one still to be sent |
| Tlb.StartIsCoherent | arch/x86_64/src/mmu.rs:334-340 | Processors running on the kernel space with empty caches are coherent |
| Tlb.ShootdownSafety | arch/x86_64/src/mmu.rs:630-638 | With the APIC up, once a shootdown of a canonical address of the page was sent and the page not unmapped or protected since, a processor caches a stale binding of it only while a shootdown interrupt is pending there, after any interleaving |
| Tlb.UnmapLeavesStale | arch/x86_64/src/mmu.rs:511-515 | A successful unmap does nothing to another processor, whatever space it runs; what becomes stale there is the page itself, exactly if the processor caches it without GLOBAL and shares the table |
| Tlb.ProtectLeavesStale | arch/x86_64/src/mmu.rs:553-562 | A successful protect does nothing to another processor; where it shares the table the page is stale exactly if the cached binding is not the new one, and elsewhere nothing changes |
| Tlb.StaleWithoutShootdown | kernel/src/svc/vm.rs:157-159 | A processor that walks to a page before another unmaps it ends with a stale binding, and no new interrupt, if and only if the space it runs shares the table of the page |
| Tlb.StaleAfterProtect | kernel/src/svc/vm.rs:161-167 | The same for protect: stale if and only if the table is shared and the flags change something |
| Witnesses.StaleAfterUnmap | kernel/src/svc/vm.rs:146-159 | A concrete run of two processors, the second on another space than the one unmapped through, that leaves it stale with nothing pending |
| Witnesses.StaleAfterReadOnly | kernel/src/svc/vm.rs:146-167 | The same run with a protect to read-only |
| Tlb.OnlyGlobalSurvives | arch/x86_64/src/interrupts/mod.rs:55-64 | After unmap, shootdown and its delivery the page is unbound and nothing pending, and a processor sharing the table still caches it if and only if it cached it GLOBAL |
| Tlb.LocalFlushExact | arch/x86_64/src/mmu.rs:606-633 | After a successful map, unmap or protect, and after a shootdown of a canonical address, the processor caches nothing for the page, GLOBAL or not, and every other cached binding stays |
| Tlb.ReloadExact | arch/x86_64/src/mmu.rs:606-628 | A switch, a full shootdown and the handler of vector 0xe1 leave exactly the GLOBAL bindings in the cache |
| Tlb.InterruptsExact | arch/x86_64/src/apic.rs:85-103 | A shootdown leaves vector 0xe1 pending on every processor but the sender, or is silent if the APIC is not initialised; nothing else but raising and delivery changes what is pending |
| Tlb.SwitchUpToDateIff | arch/x86_64/src/mmu.rs:606-614 | After a switch all the processor caches is current if and only if its GLOBAL bindings are bound alike in the new space |
| Tlb.GlobalCoherence | arch/x86_64/src/mmu.rs:606-633 | Over every run in which one processor makes all edits and switches only under that condition, all it caches, GLOBAL or not, is what its tables hold |
| Tlb.OwnStepsStayFresh | arch/x86_64/src/mmu.rs:606-628 | What a processor does itself never leaves it a stale non-GLOBAL binding |
| Tlb.UniprocessorCoherence | arch/x86_64/src/mmu.rs:606-628 | On one processor, after every operation of every run, cached non-GLOBAL bindings are those of the active tables |
| PhysicalMemory.PhysMem.Read | arch/x86_64/src/mmu.rs:264-267 | The bit tests on a raw word read the decoded entry |
| PhysicalMemory.PhysMem.ZeroFrame | arch/x86_64/src/mmu.rs:218-224 | Every word of the frame reads zero and every word of every other frame reads as before |
| PhysicalMemory.PhysMem.CopyUpperHalf | arch/x86_64/src/mmu.rs:364-373 | Words 256 to 511 of the target read as those of the source, and every other word reads as before |
| X86MmuImpl.X86Mmu.EnsureTable | arch/x86_64/src/mmu.rs:257-283 | On raw words: finds or allocates, zeroes and links the next table, as the abstract step does; a new link has the bits it should |
| X86MmuImpl.X86Mmu.FindTable | arch/x86_64/src/mmu.rs:486-510 | Four reads of raw words compute the abstract walk |
| X86MmuImpl.X86Mmu.Map4K | arch/x86_64/src/mmu.rs:431-474 | On raw words: argument checks, descents and the leaf write take the abstract step with its result; the word stored has the bits the flags call for |
| X86MmuImpl.X86Mmu.Unmap4K | arch/x86_64/src/mmu.rs:476-516 | On raw words: takes the abstract step with its result |
| X86MmuImpl.X86Mmu.Protect4K | arch/x86_64/src/mmu.rs:518-563 | On raw words: takes the abstract step with its result; the word stored keeps the frame and has the bits the flags call for |
| X86MmuImpl.X86Mmu.Translate | arch/x86_64/src/mmu.rs:565-604 | On raw words: computes the abstract translation |
| X86MmuImpl.X86Mmu.TranslateOffset | arch/x86_64/src/mmu.rs:600-602 | The offset law holds whatever words memory contains |
| X86MmuImpl.X86Mmu.AllocSlot | arch/x86_64/src/mmu.rs:285-298 | The search loop takes the first unused slot of the array |
| X86MmuImpl.X86Mmu.FreeSlot | arch/x86_64/src/mmu.rs:300-310 | The search loop releases the slot of the handle |
| X86MmuImpl.X86Mmu.AddressSpaceNew | arch/x86_64/src/mmu.rs:353-377 | Allocates, zeroes, copies the upper half and takes a slot: the abstract step with its result |
| X86MmuImpl.X86Mmu.AddressSpaceDestroy | arch/x86_64/src/mmu.rs:379-429 | The nested loops return frames in the destruction order and release the slot: the abstract step |
| StringArena.ArenaRuns | crates/bootloader/limine/src/lib.rs:106-127 | Over every sequence of copies and joins, non-empty spans are aligned, in bounds, one behind the other, and read back what they were given |
| StringArena.PutHolds | crates/bootloader/limine/src/lib.rs:106-127 | A stored string reads back; the span is empty exactly when the string is empty or does not fit |
| StringArena.PutPlaces | crates/bootloader/limine/src/lib.rs:106-127 | A string goes to the next multiple of 8 and uses up no more than that; it is refused if and only if it is empty or would end behind byte 4096 |
| StringArena.JoinReadsBack | crates/bootloader/limine/src/lib.rs:189-220 | A join reads back the first string, the byte 0x20 and the second, or the one that is not empty; the exact condition for refusal |
| StringArena.StrBuf.AllocCopy | crates/bootloader/limine/src/lib.rs:106-127 | Copies into the buffer in place, as the abstract arena does, and the span reads back the string |
| StringArena.StrBuf.AllocJoin | crates/bootloader/limine/src/lib.rs:189-220 | Stores both strings with a space between them, or the non-empty one, as the abstract arena does, and the span reads back |
| StringViews.PhysAvailable | crates/bootloader/limine/src/lib.rs:178-187 | Answers the bytes left in the first covering entry if no entry up to it overflows, and None exactly otherwise |
| StringViews.HiddenIff | crates/bootloader/limine/src/lib.rs:178-187 | A covered address goes unanswered if and only if an overflowing entry comes no later than every entry covering it |
| StringViews.OverflowHides | crates/bootloader/limine/src/lib.rs:178-187 | A concrete memory map and covered address that goes unanswered |
| StringViews.ResolveLiminePtr | crates/bootloader/limine/src/lib.rs:163-176 | Both kinds of pointer resolve to physical address plus direct-map offset modulo 2^64 |
| StringViews.CstrView | crates/bootloader/limine/src/lib.rs:129-161 | A view is returned exactly when the first NUL lies inside the entry within 1024 bytes and not at once, and it is that view |

## Left out

- Huge-page translation: the code does not interpret PS entries; such paths are excluded.
- `init_kernel` and `init_features`: control-register and MSR access; the values of CR3 and of the NXE flag are parameters, and the cached handle of a second `init_kernel` is not modelled.
- `BootPtAlloc::new`: its checks on the boot header; the model starts with the memory map as a sequence.
- `activate` and `current`: the per-processor record of the active handle is represented by the active root only.
- Locking: each operation is one atomic step; data races between `map_4k`, which takes the lock, and `unmap_4k` or `protect_4k`, which do not, are not modelled.
- Paging-structure caches: only final translations are cached in the TLB model.
- The ICR register protocol of the APIC: sending is one step that reaches all other processors.
- `convert_memmap_entries` and `gather_bootinfo`: field-by-field conversion that would add only easy members.
- The address of the string buffer: spans are named by their offset in it.
- GDT, IDT, TSS, interrupt stubs, fault decoding, timers, serial and console output: hardware tables and I/O.
- aarch64, `svc/ipc.rs` and `svc/sched.rs`: stubs in the source.
