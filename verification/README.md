# Razzer and its QEMU: verified cores

Razzer finds races in the Linux kernel by running two guest programs on the two vCPUs of a
patched QEMU 2.5.0 and making them meet at a pair of suspected instructions. This project
models the parts of that code base where a fast, buffered or concurrent structure has to
agree with a simple account of what it is for, and proves that it does. Each module stands
for one such part:

- `Basics`: types the others share.
- `Radix`, `PhysPageMap`, `PhysPageCompact`, `MemoryDispatch`: the six-level radix tree that
  sends a physical address to its memory section, with large leaves, path compaction and
  sub-page tables (exec.c).
- `Rendezvous`: the two-vCPU protocol of Razzer's own hypercalls, with its timed wait
  (hypercall.c).
- `AioWakeup`, `AioLists`: the event loop's notification handshake, step by step, and its
  two lists, walked while callbacks change them (async.c, aio-posix.c).
- `GuestPages`, `DumpBytes`, `KdumpBitmap`, `KdumpPages`, `Kdump`, `KdumpReader`: the
  kdump-compressed dump, from the page iterator to the bytes of the file, and a reader that
  gets every page back (dump.c).
- `ElfDump`, `ElfReader`: the ELF dump, whose file offsets are computed in one place and whose
  bytes are written in another, and what a reader finds through its program headers (dump.c).
- `SoftTlb`: the soft TLB with its victim table and the region of large pages (cputlb.c).
- `RamList`, `BounceBuffer`: the RAM block allocator with its lookup cache, and the one
  bounce buffer with its waiting clients (exec.c).
- `BlockCommit`, `DirtyBitmaps`: committing a copy-on-write layer, and the freezing of dirty
  bitmaps (block.c).
- `Icount`: instruction counting (cpus.c, cpu-exec.c).
- `GdbPacket`: packets and encodings of the GDB remote protocol (gdbstub.c).
- `AliasSets`: the reduction of alias sets to the maximal ones (get_aliased_pair.py).

Objects whose fields the code changes in place are classes; loops are loops, each proved
against a function or a property of the state. Protocols between threads are state machines
whose steps are the shared accesses of the code, in any order; their theorems speak about
every state of every run. Where the program calls abort or stops at an assertion, the model
returns an explicit failure or proves that the assertion holds.

Four promises turn out to hold only under a condition, which is stated and shown to be
exact, with an example of its failure:

- The kdump writer computes its offsets in 32-bit arithmetic. They are the offsets of the
  format if and only if the page area starts below 4 GiB (`Kdump.LayoutExact`), and under the
  same condition the page area does not overlap the bitmaps (`Kdump.OverlapExact`). If it
  holds, a successful dump is read back completely. If it does not, a dump into an empty file
  is not read back, provided the page area is not longer than 4 GiB, its cut offset does not
  hit the two header blocks and the block counts fit the header fields
  (`KdumpReader.DumpGuest`); a guest with one page that ends at 64 TiB is such a case
  (`Kdump.FarGuest`).
- In an ELF dump, the p_filesz bytes at p_offset are the guest bytes of a mapping, whatever
  bytes the guest holds, if and only if there are none or their place in the file fits p_offset
  (`ElfReader.ReadsExactly`); otherwise a guest that differs in one byte is read wrongly
  (`ElfReader.OverflowMisreads`). ELF32 is chosen when all memory lies below 4 GiB
  (`ElfDump.DumpClass`), but headers and notes come on top: all places fit if and only if
  headers and dumped memory together are at most 4 GiB (`ElfReader.PlacesFitExactly`). For a
  guest that ends at 0xfffff000 with a page of ones, and 8 KiB of notes, the p_offset of that
  page leads into the notes (`ElfReader.Elf32Overflows`).
- A request for a bottom half that begins with idle scheduling while the poller blocks wakes
  nobody (`AioWakeup.IdleLosesWakeup`). While the poller blocks and no wake-up is under way,
  the bottom halves that wait are exactly those (`AioWakeup.LostExactlyIdled`).
- A round of the two vCPUs ends in the right verdicts in every interleaving, for all
  operands, if and only if neither vCPU holds an address of an earlier round when it starts
  (`Rendezvous.AgreesIffClean`); otherwise some interleaving ends in two different verdicts.
  A refresh before the round makes it so (`Rendezvous.RefreshedIsClean`,
  `Rendezvous.Agreement`); without one, whatever a vCPU accessed in its last round is still
  there (`Rendezvous.StaleRoundDisagrees`).

The comments of the code and the code differ in one place that matters here: the picture of
the kdump format in dump.c puts the bitmaps at block 2, while the code puts them behind as
many blocks as sub-header and notes need. The model follows the code.

## Model

| member | source | states |
|---|---|---|
| PhysPageMap.NodeAlloc | tools/qemu-2.5.0/exec.c:196-214 | the next node of the array, every slot of it empty: section 0 in a leaf node, no child otherwise; both assertions of the code are its preconditions |
| PhysPageMap.ChildNode | tools/qemu-2.5.0/exec.c:223-227 | the node below an entry exists afterwards, at most one node is added, and no page changes its section |
| PhysPageMap.SetLevel | tools/qemu-2.5.0/exec.c:216-240 | exactly the pages of the range that lie below the entry go to the section and all others keep theirs; index and count advance to the end of the range or of the subtree; the number of new nodes is bounded by the level and by which ends of the subtree the range touches; nodes outside the subtree are untouched |
| PhysPageMap.SetSlots | tools/qemu-2.5.0/exec.c:229-239 | the loop over the slots: slots passed so far are set as asked, later ones are as before, and the allocation budget holds |
| PhysPageMap.SetChild | tools/qemu-2.5.0/exec.c:235-237 | the recursive call on one slot keeps the loop's invariant |
| PhysPageMap.WalkFrame | tools/qemu-2.5.0/exec.c:321-327 | a descent depends only on nodes allocated for the subtree it enters |
| PhysPageCompact.Compact | tools/qemu-2.5.0/exec.c:255-303 | a page mapped before goes to the same section; a page that was unmapped may now end in a section some other page of the subtree is mapped to, and in no other; afterwards no entry below leads to a node with a single used slot; nodes outside the subtree are untouched |
| PhysPageCompact.CompactSlots | tools/qemu-2.5.0/exec.c:267-277 | every slot of the node is compacted as far as it goes, and the count of children and the last child are right: none, exactly one, or more |
| PhysPageCompact.CompactSlot | tools/qemu-2.5.0/exec.c:268-276 | one slot is compacted in place, earlier and later slots keep what they had |
| PhysPageCompact.NodeSkipped | tools/qemu-2.5.0/exec.c:279-302 | replacing an entry by its node's only child, with the two skip counts added, is a compaction of that entry |
| PhysPageCompact.WalkMod | tools/qemu-2.5.0/exec.c:321-327 | a descent ignores the digits of the page number above its level |
| MemoryDispatch.PhysPageFind | tools/qemu-2.5.0/exec.c:314-336 | the loop over skip counts ends in the section the tree holds for the page if that section covers the byte, and in the unassigned section otherwise |
| MemoryDispatch.SubpageRegister | tools/qemu-2.5.0/exec.c:2216-2234 | the table entries from start to end become the section, others stay; -1 and no change outside the page |
| MemoryDispatch.Dispatch.constructor | tools/qemu-2.5.0/exec.c:2291-2309 | every byte of the 64-bit address space is unassigned |
| MemoryDispatch.Dispatch.SectionAdd | tools/qemu-2.5.0/exec.c:1046-1063 | the section gets the next number; it fails exactly when TARGET_PAGE_SIZE numbers are used up |
| MemoryDispatch.Dispatch.NodeReserve | tools/qemu-2.5.0/exec.c:187-194 | the array is left alone if it has room for that many more nodes, and otherwise grows to at least 16 nodes, at least doubles, and has the room |
| MemoryDispatch.Dispatch.PageSet | tools/qemu-2.5.0/exec.c:242-250 | maps exactly the given pages and allocates at most 2 * P_L2_LEVELS - 1 nodes, so reserving 3 * P_L2_LEVELS is always enough |
| MemoryDispatch.Dispatch.AddPages | tools/qemu-2.5.0/exec.c:1107-1108 | a new section is mapped over unmapped pages and nowhere else, at the cost of one section number; it fails exactly when none is left |
| MemoryDispatch.Dispatch.RegisterMultipage | tools/qemu-2.5.0/exec.c:1119-1129 | the bytes of a free page-aligned section are found in it, all other bytes where they were, at the cost of one section number |
| MemoryDispatch.Dispatch.RegisterSubpage | tools/qemu-2.5.0/exec.c:1088-1116 | the same for a section inside one page, whose sub-page is made if it is missing, at the cost of at most two section numbers; the code's assertion about the page's present section never fails |
| MemoryDispatch.Dispatch.NewSubpage | tools/qemu-2.5.0/exec.c:1104-1108 | giving a page an empty sub-page changes no lookup |
| MemoryDispatch.Dispatch.EnterTable | tools/qemu-2.5.0/exec.c:1112-1115 | entering the section into the page's table makes exactly its bytes lead to it |
| MemoryDispatch.SubpagePage | tools/qemu-2.5.0/exec.c:1101-1101 | the page of a free section holds a sub-page or nothing, for every dispatch in the invariant |
| MemoryDispatch.Dispatch.MemAdd | tools/qemu-2.5.0/exec.c:1131-1162 | after splitting at page borders the lookup of every byte of the section gives the piece of it that the byte belongs to, at the matching region offset, and of every other byte what it gave before; it takes at most `Cost` section numbers, two for each end inside a page and one for all whole pages, and fails only if they are not there |
| MemoryDispatch.Dispatch.AddPart | tools/qemu-2.5.0/exec.c:1151-1160 | one turn of the loop registers all whole pages that are left as one section, or the last part if there is none; the numbers it takes and those the rest will need stay within the cost; the unaligned branch is never taken |
| MemoryDispatch.Dispatch.AddHead | tools/qemu-2.5.0/exec.c:1138-1146 | the part before the first page border is registered, so that the rest starts at one, within the cost of the section |
| MemoryDispatch.Dispatch.AddNext | tools/qemu-2.5.0/exec.c:1147-1161 | a turn of the loop makes every byte up to the new start of the rest lead to its piece of the section |
| MemoryDispatch.PieceAt | tools/qemu-2.5.0/exec.c:1131-1162 | which piece a byte of a section belongs to, computed from the two ends alone: it contains the byte and its region offsets match |
| MemoryDispatch.Cost | tools/qemu-2.5.0/exec.c:1131-1162 | a section costs at most five section numbers |
| MemoryDispatch.CompactedFind | tools/qemu-2.5.0/exec.c:305-336 | compaction preserves phys_page_find for every address, also where skipped digits differ: the range check at the leaf refuses the wrong section |
| MemoryDispatch.CompactedLookup | tools/qemu-2.5.0/exec.c:345-358 | compaction preserves the lookup with and without sub-page resolution for every byte |
| MemoryDispatch.Dispatch.Commit | tools/qemu-2.5.0/exec.c:2317-2329 | committing changes no lookup and leaves no entry that leads to a node with a single used slot |
| MemoryDispatch.Dispatch.LookupRegion | tools/qemu-2.5.0/exec.c:345-358 | the lookup as specified, with sub-pages resolved or not |
| MemoryDispatch.Build | tools/qemu-2.5.0/exec.c:2291-2329 | for any list of pairwise disjoint sections, mem_begin, mem_add of each and mem_commit give a compacted dispatch whose lookup of every byte is the piece, found by `PieceAt`, of the one section containing it, or the unassigned section; it takes at most 4 + 5 * n section numbers for n sections and cannot fail while that many exist |
| Rendezvous.Agreement | tools/qemu-2.5.0/hypercall.c:108-214 | in every interleaving of any number of refreshed rounds, with timeouts, spurious wake-ups, late arrivals and breakpoints hit before the other vCPU has started, every verdict and every value reported by the end command is 1 exactly if one vCPU arrived while the other slept and their accesses hit the same address with at least one write |
| Rendezvous.NextInv | tools/qemu-2.5.0/hypercall.c:108-214 | every step of the protocol keeps the invariant that ties phases, flags and recorded addresses to what happened in the round |
| Rendezvous.RunInv | tools/qemu-2.5.0/hypercall.c:295-375 | the invariant holds in every state of every run, whatever the globals held at first |
| Rendezvous.ArriveInv | tools/qemu-2.5.0/hypercall.c:130-214 | an arrival at wait_race keeps the invariant, in each of the three phases of the other vCPU |
| Rendezvous.WakeInv | tools/qemu-2.5.0/hypercall.c:186-199 | waking from the timed wait keeps it, whether signalled, timed out or spurious, and also if the other vCPU passed in between |
| Rendezvous.SameIsConflict | tools/qemu-2.5.0/hypercall.c:31-48 | is_same_address on what the two vCPUs recorded means: same address, at least one write |
| Rendezvous.FirstAccessIs | tools/qemu-2.5.0/hypercall.c:144-159 | no access is recorded if and only if all operands are 0; otherwise it is the first operand that is not 0, and it counts as a write if and only if it is the last operand |
| Rendezvous.RacesIsConflict | tools/qemu-2.5.0/hypercall.c:31-48 | the accesses conflict if and only if the first addresses of the two operand lists are the same and one of them stands last |
| Rendezvous.MeetingDecides | tools/qemu-2.5.0/hypercall.c:163-199 | if one vCPU arrives while the other sleeps, both verdicts say whether their operand lists race, however the sleeper is woken; a leftover of an earlier round does no harm to a vCPU whose instruction has an address |
| Rendezvous.MissingDecides | tools/qemu-2.5.0/hypercall.c:177-199 | if the sleeper wakes before the other one arrives, both verdicts are that there is no race |
| Rendezvous.TimeoutIsNoRace | tools/qemu-2.5.0/hypercall.c:186-199 | a wait that times out before the other vCPU has passed ends without a race, whatever is recorded |
| Rendezvous.ReadsNeverRace | tools/qemu-2.5.0/hypercall.c:31-48 | in every run of refreshed rounds, two vCPUs that only read never get the verdict 1 |
| Rendezvous.BreakpointOnlyInside | tools/qemu-2.5.0/hypercall.c:295-375 | in every run the breakpoint is set exactly from the start of a vCPU's program to its hit, and never outside a program |
| Rendezvous.AgreesIffClean | tools/qemu-2.5.0/hypercall.c:108-214 | from any started round in which nothing has been recorded yet: every continuation, with every choice of operands, gives only right verdicts if and only if both vCPUs' recorded addresses are 0; otherwise some continuation gives two different verdicts |
| Rendezvous.LeftoverDiffers | tools/qemu-2.5.0/hypercall.c:163-210 | an address left in either vCPU, read or written: for every access of that vCPU this time there is a continuation in which it makes that access and sees no race, while the other one, woken without cause, sees one |
| Rendezvous.CleanAgrees | tools/qemu-2.5.0/hypercall.c:122-214 | a round that starts with both recorded addresses 0 gives only right verdicts and reports, which never differ |
| Rendezvous.RefreshedIsClean | tools/qemu-2.5.0/hypercall.c:122-128 | in every run in which each round follows a refresh, the recorded addresses are 0 when the round starts |
| Rendezvous.StaleRoundDisagrees | tools/qemu-2.5.0/hypercall.c:295-330 | for either vCPU and any access: a run of a whole round and a second start without refresh after which that access is still recorded and the new round can end in two different verdicts |
| Rendezvous.RaceGlobals.IsSameAddress | tools/qemu-2.5.0/hypercall.c:31-48 | the three comparisons, on the two vCPUs in fixed order, decide the symmetric relation |
| Rendezvous.RaceGlobals.RecordAccess | tools/qemu-2.5.0/hypercall.c:144-159 | the first operand with an address is recorded, as a write only if it is the last one; nothing changes without one |
| Rendezvous.RaceGlobals.ArriveAt | tools/qemu-2.5.0/hypercall.c:163-210 | verdict or sleep, as the other vCPU's phase demands; only this vCPU's fields change |
| Rendezvous.RaceGlobals.WaitRaceEnter | tools/qemu-2.5.0/hypercall.c:122-214 | the globals after wait_race up to sleeping are those of the protocol step |
| Rendezvous.RaceGlobals.WaitRaceWake | tools/qemu-2.5.0/hypercall.c:189-210 | the globals after the timed wait are those of the protocol step |
| Rendezvous.RaceGlobals.CommandStart | tools/qemu-2.5.0/hypercall.c:295-330 | -1 and no change unless the vCPU is ready, otherwise verdict and phase are reset and the breakpoint set |
| Rendezvous.RaceGlobals.CommandEnd | tools/qemu-2.5.0/hypercall.c:332-357 | -1 unless a program runs, otherwise the verdict, and the vCPU is ready again |
| Rendezvous.RaceGlobals.CommandRefresh | tools/qemu-2.5.0/hypercall.c:359-375 | the vCPU is ready, not waiting, and its recorded access is to be cleared at the next wait_race |
| AioWakeup.NoLostWakeup | tools/qemu-2.5.0/async.c:126-187 | in every interleaving of one blocking poller with any number of scheduling threads, while the poller blocks without timeout and a bottom half is pending, the notifier is set or a thread is on its way to set it; bottom halves whose pending request began with idle scheduling are excluded |
| AioWakeup.NextInv | tools/qemu-2.5.0/async.c:283-300 | every step keeps: a pending bottom half the poller has passed means the notifier is set or about to be, and notify_me is 2 exactly inside the blocking part |
| AioWakeup.RunInv | tools/qemu-2.5.0/aio-posix.c:420-461 | that invariant holds in every state of every run |
| AioWakeup.NoticeKept | tools/qemu-2.5.0/async.c:283-292 | while the poller is armed no step but clearing loses a notification on its way |
| AioWakeup.IdleLosesWakeup | tools/qemu-2.5.0/async.c:117-141 | from every state in which the poller blocks and nobody is about to wake it, idle scheduling followed by ordinary scheduling leaves it blocked with the bottom half scheduled and no notification |
| AioWakeup.LostExactlyIdled | tools/qemu-2.5.0/async.c:117-141 | in every reachable state in which the poller blocks, the notifier is clear and nobody is on the way, a live bottom half is scheduled if and only if its request began with idle scheduling |
| AioWakeup.BlockedPoller | tools/qemu-2.5.0/aio-posix.c:420-452 | such a state is reached by a poller that looked before anything was scheduled |
| AioWakeup.WakeupIsServed | tools/qemu-2.5.0/aio-posix.c:451-476 | once the schedulers are done the notifier is set and the poller, continuing alone, runs the bottom half and clears the notification |
| AioWakeup.NotifierMarked | tools/qemu-2.5.0/async.c:283-300 | in every run a set notifier is accompanied by the flag that makes the poller clear it, or a thread is about to set that flag, or the poller is clearing it |
| AioWakeup.NoNeedlessNotice | tools/qemu-2.5.0/async.c:283-292 | as long as nobody polls, no thread sets the notifier |
| AioWakeup.SawWorkPolls | tools/qemu-2.5.0/async.c:160-187 | once the timeout computation has seen a scheduled bottom half or a deadline the poller does not block |
| AioWakeup.WorkIsSeen | tools/qemu-2.5.0/async.c:160-187 | a live bottom half that is scheduled when the poller comes to it is seen, and makes poll return at once unless it is idle |
| AioWakeup.Scheduled | tools/qemu-2.5.0/async.c:126-141 | qemu_bh_schedule, undisturbed, leaves the bottom half scheduled and not idle and sets the notifier if and only if it was not scheduled before and somebody polls |
| AioWakeup.ScheduledIdle | tools/qemu-2.5.0/async.c:117-124 | qemu_bh_schedule_idle, undisturbed, leaves it scheduled and idle and notifies nobody |
| AioWakeup.Created | tools/qemu-2.5.0/async.c:44-60 | a new bottom half is on the list and neither scheduled nor idle |
| AioWakeup.Cancelled | tools/qemu-2.5.0/async.c:146-149 | qemu_bh_cancel takes the request back and nothing else |
| AioWakeup.Deleted | tools/qemu-2.5.0/async.c:154-158 | qemu_bh_delete takes the request back and the bottom half off the live ones |
| AioWakeup.DispatchAll | tools/qemu-2.5.0/async.c:62-115 | aio_bh_poll, undisturbed, ends, having run exactly the live scheduled bottom halves and cleared their idle flags |
| AioWakeup.AllServed | tools/qemu-2.5.0/aio-posix.c:451-476 | one turn of the woken poller serves every live scheduled bottom half, idle or not, and takes notify_me back |
| AioLists.ListSafety | tools/qemu-2.5.0/async.c:44-115 | under any nesting of polls and any callbacks that add, schedule, cancel or delete: no entry a walker will still look at has been freed, only deleted entries are freed, each descriptor has at most one live handler, and runs never outnumber schedule calls |
| AioLists.NextInv | tools/qemu-2.5.0/aio-posix.c:204-349 | every step of the walks and of the list operations keeps the invariant behind that |
| AioLists.RunInv | tools/qemu-2.5.0/aio-posix.c:295-349 | the invariant holds in every state of every run |
| AioLists.NextOfAt | tools/qemu-2.5.0/async.c:78-79 | on a list without repetitions the step of a walk goes from each entry to the one behind it |
| AioLists.BhWalkComplete | tools/qemu-2.5.0/async.c:62-115 | in every run, whatever the callbacks do, a walk over the bottom halves that has come to its end looked at every entry that was on the list when it began, and an entry that was due when it was looked at was run |
| AioLists.HWalkComplete | tools/qemu-2.5.0/aio-posix.c:295-349 | the same for the handlers: each was looked at, a live one that was ready was called, and a deleted one was freed if nobody else was walking |
| AioLists.WriteFollows | tools/qemu-2.5.0/aio-posix.c:323-338 | after the read callback the write callback follows if and only if the handler is still live |
| AioLists.CallsLive | tools/qemu-2.5.0/aio-posix.c:323-338 | a callback is entered only for a handler that is live at that moment |
| AioLists.BhsSwept | tools/qemu-2.5.0/async.c:96-112 | the outermost walker frees exactly the deleted bottom halves and keeps the others on the list |
| AioLists.SetHandlerDecides | tools/qemu-2.5.0/aio-posix.c:204-260 | afterwards the descriptor has a live handler if and only if one was installed, and other descriptors as before |
| AioLists.BhOpDecides | tools/qemu-2.5.0/async.c:44-60 | afterwards a bottom half is due if and only if it was scheduled by this call, or was due and the call is about another one |
| AioLists.FinishHandlerInv | tools/qemu-2.5.0/aio-posix.c:340-348 | freeing a deleted handler when the last walker leaves it cannot free the one the walk goes on to |
| AioLists.FinishBhsInv | tools/qemu-2.5.0/async.c:96-112 | the removal of deleted bottom halves by the outermost walker keeps the invariant |
| AioLists.SetHandlerInv | tools/qemu-2.5.0/aio-posix.c:204-260 | installing, replacing or deleting a handler, at once or by marking it, keeps the invariant |
| AioLists.TakeBhInv | tools/qemu-2.5.0/async.c:86-94 | taking a scheduled bottom half uses up one schedule call |
| AioLists.FindAioHandler | tools/qemu-2.5.0/aio-posix.c:191-202 | the loop finds the live handler of the descriptor, or there is none |
| AioLists.RemoveDeleted | tools/qemu-2.5.0/async.c:99-112 | exactly the deleted bottom halves leave the list and are freed, the rest keep their order |
| GuestPages.GetNextPage | tools/qemu-2.5.0/dump.c:1000-1044 | from page k the iterator goes to page k + 1 of the block list with its frame number and contents, and stops after the last |
| GuestPages.PagesRise | tools/qemu-2.5.0/dump.c:1020-1037 | the frame numbers visited rise, so each page is visited once |
| GuestPages.PagesAreGuestPages | tools/qemu-2.5.0/dump.c:1000-1044 | the pages visited are exactly the pages of the guest, with their contents |
| KdumpBitmap.Output.WriteBuffer | tools/qemu-2.5.0/dump.c:684-703 | the bytes land at their offset and nowhere else; a write that fails leaves the file |
| KdumpBitmap.Flush | tools/qemu-2.5.0/dump.c:962-980 | one turn of the flush loop appends the buffer to both bitmaps and clears it |
| KdumpBitmap.SetDumpBitmap | tools/qemu-2.5.0/dump.c:943-992 | both bitmaps and the buffer together show the frames so far and the new one, whatever buffers lie in between; only the bitmap area is written |
| KdumpBitmap.MarkPages | tools/qemu-2.5.0/dump.c:1057-1073 | after the loop every page of the guest is marked, in the file or the buffer |
| KdumpBitmap.SyncBitmap | tools/qemu-2.5.0/dump.c:1080-1087 | the closing call with a bit one buffer ahead writes out exactly the last buffer |
| KdumpBitmap.WriteDumpBitmap | tools/qemu-2.5.0/dump.c:1046-1094 | both bitmaps are complete and show exactly the frames of the guest, and the count is the number of pages |
| KdumpPages.DataCache.constructor | tools/qemu-2.5.0/dump.c:1096-1104 | an empty cache at the offset |
| KdumpPages.DataCache.WriteCache | tools/qemu-2.5.0/dump.c:1106-1136 | file and cache together hold the whole stream with the new bytes at its end; after a sync the file alone does; only the stream's own bytes are written, and not at all while they fit the cache; it succeeds if the write does |
| KdumpPages.WriteData | tools/qemu-2.5.0/dump.c:1229-1308 | the page's payload, compressed only if that is shorter, is appended to the data stream, or nothing for a zero page, and the descriptor says where and by which compressor |
| KdumpPages.DataSize | tools/qemu-2.5.0/dump.c:1229-1308 | the page data takes one shared page, nothing for a zero page, and for any other the shorter of the page and its compressed form |
| KdumpPages.WriteDescriptor | tools/qemu-2.5.0/dump.c:1305-1314 | the descriptor is appended to the descriptor stream |
| KdumpPages.DumpPages | tools/qemu-2.5.0/dump.c:1221-1316 | after the loop both streams are those of all pages |
| KdumpPages.PutZeroPage | tools/qemu-2.5.0/dump.c:1209-1219 | the data stream starts with the page all zero pages share |
| KdumpPages.SyncCaches | tools/qemu-2.5.0/dump.c:1318-1327 | both streams are in the file |
| KdumpPages.WriteDumpPages | tools/qemu-2.5.0/dump.c:1173-1338 | the file holds one descriptor per page from offset_page on and the page data behind them; nothing before offset_page or behind the data changes |
| Kdump.LayoutExact | tools/qemu-2.5.0/dump.c:742-813 | the 32-bit arithmetic of the header functions gives the offsets of the format if and only if the page area starts below 4 GiB |
| Kdump.OverlapExact | tools/qemu-2.5.0/dump.c:742-813 | with bitmaps below 4 GiB: the offset of the page area lies behind both bitmaps if and only if the page area starts below 4 GiB in the format |
| Kdump.BigGuestOverlaps | tools/qemu-2.5.0/dump.c:807-813 | for a guest ending at 64 TiB, of either class and with any size of notes, the page area is put exactly on top of the first bitmap |
| Kdump.FarGuest | tools/qemu-2.5.0/dump.c:807-813 | a guest whose only page ends at 64 TiB does not fit, and meets the conditions under which its dump is proved unreadable |
| Kdump.Places | tools/qemu-2.5.0/dump.c:781-813 | headers, notes, two bitmaps and page area follow each other without overlap |
| Kdump.WriteDumpHeader | tools/qemu-2.5.0/dump.c:822-920 | header, sub-header and notes are in their places, for both ELF classes, and nothing behind the notes is written |
| Kdump.CreateKdumpVmcore | tools/qemu-2.5.0/dump.c:1340-1398 | if every write succeeds and the page area starts below 4 GiB, every part of the vmcore is in its place; if every write succeeds, wherever the cut offsets lie, nothing behind the last of notes, bitmaps and page area is written, and the header blocks stand if no part is put on them |
| KdumpReader.RoundTrip | tools/qemu-2.5.0/dump.c:1173-1338 | a reader that takes block size and layout from the header, tests the page's bit, ranks it to a descriptor, follows offset and size and picks the decompressor by the flags it reads there gets each guest page back, and finds no page the guest does not have; for every sane block list, either byte order and class, and any compressor whose flag value the reader has a left inverse for |
| KdumpReader.DumpGuest | tools/qemu-2.5.0/dump.c:1340-1398 | the file the writer produces is read back completely if the page area starts below 4 GiB; for a dump into an empty file whose page area is not longer than 4 GiB and does not hit the header blocks, if and only if; the dump succeeds if every write does |
| KdumpReader.PageLost | tools/qemu-2.5.0/dump.c:1173-1338 | in such a file beyond 4 GiB no page of the guest is read back: where the reader looks for descriptors nothing was written |
| KdumpReader.RankOfPage | tools/qemu-2.5.0/dump.c:943-992 | the number of bits before a page's bit is its place in the iteration |
| KdumpReader.DescriptorRead | tools/qemu-2.5.0/include/sysemu/dump.h:151-156 | a descriptor of 24 bytes reads back in either byte order |
| KdumpReader.DataRead | tools/qemu-2.5.0/dump.c:1229-1308 | the data a descriptor points at, decompressed as its flags say, is the page |
| KdumpReader.LayoutRead | tools/qemu-2.5.0/dump.c:838-914 | the header fields lead the reader to the offsets the writer used |
| KdumpReader.HeaderFields | tools/qemu-2.5.0/dump.c:734-765 | compressor, block size, block counts, frame count and CPU count read from the header are those of the dump, the frame count cut to 32 bits at the top |
| KdumpReader.NotesRead | tools/qemu-2.5.0/dump.c:772-805 | offset and size read from the sub-header lead to the notes, and the dump level is the writer's |
| GuestPages.GuestPageMeans | tools/qemu-2.5.0/dump.c:1000-1044 | the guest page of a frame is the bytes of the block that holds that frame, and there is none if no block does |
| DumpBytes.EncodeByte | tools/qemu-2.5.0/dump.c:51-71 | byte i of a word is the value divided by 256 to the i, modulo 256, in either byte order |
| DumpBytes.TestBitIs | tools/qemu-2.5.0/dump.c:982-989 | bit j of a bitmap byte is its binary digit j |
| DumpBytes.WordKept | tools/qemu-2.5.0/dump.c:51-71 | a value survives encoding in n bytes exactly if it fits them |
| DumpBytes.WordCut | tools/qemu-2.5.0/dump.c:51-71 | what is read back is the value modulo the range of n bytes, in either byte order |
| ElfDump.GetOffsetRange | tools/qemu-2.5.0/dump.c:370-429 | for every block list and filter window: -1 exactly if no dumped part of a block covers the address; otherwise the offset is the place of that address in the dumped memory, and the memory part of the file holds there filesz bytes of that block from the address on, where filesz is the mapping's length cut at the end of the dumped part |
| ElfDump.ComputeRange | tools/qemu-2.5.0/dump.c:380-428 | offset and size as numbers: the dumped bytes of earlier blocks plus the distance into this one |
| ElfDump.DumpState.WriteMemory | tools/qemu-2.5.0/dump.c:344-367 | page-sized writes and a rest append exactly the given bytes of the block |
| ElfDump.DumpState.GetStartBlock | tools/qemu-2.5.0/dump.c:1400-1426 | the first block in the window and the start in it, or none is in the window |
| ElfDump.DumpState.GetNextBlock | tools/qemu-2.5.0/dump.c:576-601 | the next block in the window and the start in it; the blocks skipped are out of it |
| ElfDump.DumpState.DumpIterate | tools/qemu-2.5.0/dump.c:604-629 | what is appended is the dumped bytes of all blocks in order |
| ElfDump.DumpState.WriteElfLoads | tools/qemu-2.5.0/dump.c:431-466 | what is appended is one encoded program header per mapping up to the header count, each with offset and size right for the memory part at memory_offset |
| ElfDump.DumpState.DumpBegin | tools/qemu-2.5.0/dump.c:469-569 | the file up to the memory, with the headers |
| ElfDump.PrefixLength | tools/qemu-2.5.0/dump.c:1555-1590 | memory_offset is the number of bytes written before the memory, with and without a section header |
| ElfDump.DumpState.CreateVmcore | tools/qemu-2.5.0/dump.c:604-642 | the file is headers then memory, a function of the dump's plan; read from the file behind the ELF header and the note header, every program header is a PT_LOAD whose p_paddr, p_vaddr and p_memsz are those of its mapping, cut to the field; its p_filesz is 0 if the guest does not have the mapping's address, and otherwise the number of guest bytes that lie at that address's place in the file, while p_offset is that place if and only if it fits the field; if every write succeeds, it fails exactly if no block is in the window |
| ElfDump.OffsetKept | tools/qemu-2.5.0/dump.c:166-210 | p_offset read from the place of a header in the file is the offset if and only if it fits the field, which for ELF32 is 32 bits |
| ElfDump.HeaderAt | tools/qemu-2.5.0/dump.c:444-466 | the program header of mapping i begins behind the ELF header, the note header and i others |
| ElfDump.MappingRead | tools/qemu-2.5.0/dump.c:166-210 | type, virtual and physical address and memory size read from the place of a header are those of its mapping, modulo the range of the field |
| ElfDump.HeaderNamed | tools/qemu-2.5.0/dump.c:166-210 | and p_paddr is never cut where the guest has the mapping's address |
| ElfDump.PrefixParts | tools/qemu-2.5.0/dump.c:469-569 | ELF header, note header, section header and notes lie where the layout puts them |
| ElfDump.CountFits | tools/qemu-2.5.0/dump.c:1555-1570 | the number of program headers fits e_phnum, or there is a section header to hold it |
| ElfDump.CoversMeans | tools/qemu-2.5.0/dump.c:384-411 | an address is dumped if and only if it is in a block and in the window, and a block is left out if and only if none of its addresses is dumped |
| ElfDump.ClampMeans | tools/qemu-2.5.0/dump.c:413-424 | p_filesz reaches as far as the addresses of the mapping are dumped, and no farther |
| ElfDump.DumpClass | tools/qemu-2.5.0/target-i386/arch_dump.c:404-416 | ELF64 exactly in long mode or if some block ends above UINT_MAX |
| ElfReader.PlacesFitExactly | tools/qemu-2.5.0/dump.c:1555-1590 | every byte of the dumped memory has a place the p_offset of the class can name if and only if nothing is dumped or headers, notes and memory together do not exceed 4 GiB for ELF32, or 2^64 for ELF64 |
| ElfReader.ReadsExactly | tools/qemu-2.5.0/dump.c:166-210 | for every dump and mapping: reading p_filesz bytes at p_offset gives the guest bytes, for all contents of guest, headers and notes, if and only if there are none or their place fits p_offset |
| ElfReader.OverflowMisreads | tools/qemu-2.5.0/dump.c:189-210 | if the place does not fit and there are bytes to read, some guest of the same blocks, mappings and sizes has a file whose byte at p_offset is not the guest byte |
| ElfReader.FitsReadRight | tools/qemu-2.5.0/dump.c:370-429 | if the place fits, the p_filesz bytes at p_offset of the written file are the guest bytes of the first block that covers the address |
| ElfReader.FileWith | tools/qemu-2.5.0/dump.c:604-629 | changing one guest byte changes the file at the place of that byte and nowhere else |
| ElfReader.Elf32Overflows | tools/qemu-2.5.0/dump.c:189-210 | a guest with all memory below 4 GiB, hence ELF32, whose last page holds ones, and 8 KiB of zero notes: p_offset of that page reads 116, where the file holds a zero of the notes |
| SoftTlb.WidenMask | tools/qemu-2.5.0/cputlb.c:331-334 | the loop ends with a prefix mask coarser than both, under which the two addresses agree, and with the finest such mask |
| SoftTlb.AddLargePage | tools/qemu-2.5.0/cputlb.c:318-337 | the recorded region afterwards covers every large page recorded before and the new one, and is the least aligned block that does |
| SoftTlb.ContainsAddress | tools/qemu-2.5.0/cputlb.c:134-143 | an address inside a recorded large page lies in the recorded region |
| SoftTlb.LargeRange | tools/qemu-2.5.0/cputlb.c:318-323 | an aligned large page contains every address from its own up to its size |
| SoftTlb.LargeOffset | tools/qemu-2.5.0/cputlb.c:318-323 | and no other |
| SoftTlb.RegionIsLeast | tools/qemu-2.5.0/cputlb.c:134-143 | an address in the recorded region lies in every aligned block that holds all recorded large pages |
| SoftTlb.IndexSame | tools/qemu-2.5.0/cputlb.c:149-149 | two addresses share a table index if and only if they agree in the eight bits above the page offset |
| SoftTlb.Tlb.Flush | tools/qemu-2.5.0/cputlb.c:51-70 | all entries of all modes are empty and no large page is remembered |
| SoftTlb.Tlb.SetPage | tools/qemu-2.5.0/cputlb.c:346-427 | the entry translates exactly the allowed accesses of the page, with the flags of its section, the one it replaces moves to the victim table, other entries stay, a large page is remembered with its address and size |
| SoftTlb.Tlb.FlushMain | tools/qemu-2.5.0/cputlb.c:148-152 | flushing one index per mode flushes every matching entry of the main tables |
| SoftTlb.Tlb.FlushVictim | tools/qemu-2.5.0/cputlb.c:154-160 | every matching victim entry is flushed |
| SoftTlb.Tlb.FlushPage | tools/qemu-2.5.0/cputlb.c:125-163 | no main or victim entry of any mode matches the page; if a large page since the last full flush contains the address, that is, the address differs from the page's by less than its size, no entry is left; otherwise all is flushed only if the address lies in every aligned block that holds the large pages, and else only matching entries go |
| RamList.FindRamOffset | tools/qemu-2.5.0/exec.c:1299-1333 | the end of the block followed by the smallest gap that is large enough, the first such; 0 in an empty list; it aborts exactly if no gap suffices |
| RamList.GapFree | tools/qemu-2.5.0/exec.c:1310-1324 | a block put there overlaps no other and stays inside the address space |
| RamList.NextStartIs | tools/qemu-2.5.0/exec.c:1311-1319 | the next start behind an end is the least offset of a block not below it, or the end of the address space |
| RamList.InsertedOk | tools/qemu-2.5.0/exec.c:1525-1537 | inserting before the first smaller block keeps the list disjoint and ordered by size |
| RamList.InsertedAt | tools/qemu-2.5.0/exec.c:1525-1537 | the new block stands before the first smaller one, everything else in its order |
| RamList.RamBlocks.Insert | tools/qemu-2.5.0/exec.c:1525-1537 | the loop inserts before the first smaller block, or at the end |
| RamList.RamBlocks.RamBlockAdd | tools/qemu-2.5.0/exec.c:1487-1543 | on success the block is on the list at the best-fit offset; it fails exactly if no gap suffices or the allocation fails, and then list, cache and version are unchanged; blocks stay disjoint and ordered |
| RamList.RamBlocks.RamFree | tools/qemu-2.5.0/exec.c:1719-1736 | the block with that offset, and no other, leaves the list; the cache is cleared and the version counted up exactly if there was one |
| RamList.RamBlocks.GetRamBlock | tools/qemu-2.5.0/exec.c:900-936 | the cached lookup equals the linear search for every address; the result covers it and becomes the cached block; none, where the program aborts, exactly if no block covers it |
| RamList.InBlockMeans | tools/qemu-2.5.0/exec.c:904-912 | the wrapped unsigned comparison means that the address is in the block |
| BounceBuffer.OneMapping | tools/qemu-2.5.0/exec.c:2837-2858 | in every interleaving at most one bounce mapping is live and the buffer is the one it filled |
| BounceBuffer.NoClientForgotten | tools/qemu-2.5.0/exec.c:2735-2786 | for every registration: while on the list it waits for a buffer in use, or a thread has yet to look at the list, and it has been neither scheduled nor removed; once off the list it was either scheduled or removed, and not both |
| BounceBuffer.OneRegisters | tools/qemu-2.5.0/exec.c:2746-2757 | in every interleaving at most one thread is between entering its client and testing the buffer |
| BounceBuffer.FreeIsMapped | tools/qemu-2.5.0/exec.c:2837-2858 | when no thread holds the buffer an idle thread gets it, for its own address |
| BounceBuffer.UnmapServes | tools/qemu-2.5.0/exec.c:2910-2914 | the thread that gives the buffer back takes every waiting client off the list and schedules it |
| BounceBuffer.RegisterServes | tools/qemu-2.5.0/exec.c:2746-2757 | a client that registers while the buffer is free is scheduled at once |
| BounceBuffer.RegisterWaits | tools/qemu-2.5.0/exec.c:2746-2757 | a client that registers while the buffer is in use waits |
| BounceBuffer.UnregisterRemoves | tools/qemu-2.5.0/exec.c:2767-2779 | a client that unregisters while it waits is not scheduled |
| BounceBuffer.NextInv | tools/qemu-2.5.0/exec.c:2837-2914 | every step of mapping, unmapping, registration and notification keeps the invariant behind both |
| BlockCommit.Layer.Commit | tools/qemu-2.5.0/block.c:2158-2263 | on every exit the guest-visible contents are unchanged, and were after every single change to either image; on success the backing image alone holds them and, if the driver can, the layer is empty; the backing image keeps every sector the layer does not have; refused commits change nothing, each with its own status; if no driver call fails the commit succeeds, short of memory, and a read-only backing image is read-only again |
| BlockCommit.Layer.CommitOpened | tools/qemu-2.5.0/block.c:2187-2253 | the same between reopening the backing image and undoing that; a length that cannot be read ends it before any change |
| BlockCommit.Layer.CopySectors | tools/qemu-2.5.0/block.c:2219-2235 | after the loop every allocated sector is in the backing image and no other sector of it has changed; the view never changed, also if a write fails part way; it succeeds if no driver call fails |
| BlockCommit.WriteHidden | tools/qemu-2.5.0/block.c:2230-2233 | whatever lands in sectors the layer has allocated does not show |
| BlockCommit.DropHidden | tools/qemu-2.5.0/block.c:2237-2243 | once all is copied, dropping any part of the layer does not show |
| BlockCommit.GrowHidden | tools/qemu-2.5.0/block.c:2199-2207 | growing the backing image by zeros does not show |
| DirtyBitmaps.Device.Create | tools/qemu-2.5.0/block.c:3153-3183 | a new empty enabled bitmap of that name, refused exactly if the name is in use or the length of the device cannot be read |
| DirtyBitmaps.Device.CreateSuccessor | tools/qemu-2.5.0/block.c:3210-3236 | the bitmap is frozen behind a new anonymous one, refused exactly if it is frozen already or the length of the device cannot be read |
| DirtyBitmaps.Device.Abdicate | tools/qemu-2.5.0/block.c:3242-3262 | the successor takes over the name and holds exactly the writes since the freeze; all other bitmaps stay |
| DirtyBitmaps.Device.Reclaim | tools/qemu-2.5.0/block.c:3269-3288 | the parent holds exactly the union, all writes since its last clear; the successor is gone; all other bitmaps stay |
| DirtyBitmaps.Device.SetDirty | tools/qemu-2.5.0/block.c:3428-3438 | a write marks its granules in every bitmap that is enabled and in no other |
| DirtyBitmaps.Device.Covers | tools/qemu-2.5.0/block.c:3428-3438 | at any time a bitmap, together with its successor if frozen, shows exactly the granules written since its last clear while not disabled |
| DirtyBitmaps.Device.Reset | tools/qemu-2.5.0/block.c:3400-3405 | the granules of the sectors are cleared |
| DirtyBitmaps.Device.Clear | tools/qemu-2.5.0/block.c:3407-3418 | all granules are cleared |
| DirtyBitmaps.Device.SetDisabled | tools/qemu-2.5.0/block.c:3320-3330 | only the flag changes; writes while disabled are not noted |
| DirtyBitmaps.Device.Release | tools/qemu-2.5.0/block.c:3305-3318 | the bitmap is gone, the others stay |
| DirtyBitmaps.Device.Find | tools/qemu-2.5.0/block.c:3133-3144 | the one bitmap of that name, or none has it |
| DirtyBitmaps.DirtiedOk | tools/qemu-2.5.0/block.c:3428-3438 | a write keeps the agreement of bitmaps and log, and the names unique |
| DirtyBitmaps.AbdicatedOk | tools/qemu-2.5.0/block.c:3242-3262 | so does an abdication |
| DirtyBitmaps.ReclaimedOk | tools/qemu-2.5.0/block.c:3269-3288 | so does a reclaim |
| DirtyBitmaps.SectorMarked | tools/qemu-2.5.0/block.c:3393-3398 | every sector of a write lies in a marked granule |
| DirtyBitmaps.GranulesExact | tools/qemu-2.5.0/block.c:3393-3398 | a granule is marked by a write if and only if a sector of the write lies in it |
| Icount.TcgCpu.TcgCpuExec | tools/qemu-2.5.0/cpus.c:1467-1505 | over budget, refills, the cut block and the fold-back the raw counter advances by exactly the instructions executed, which are those of a machine that counts down one plain budget block by block; nothing is left over |
| Icount.TcgCpu.SetBudget | tools/qemu-2.5.0/cpus.c:1484-1490 | the budget is split between a 16-bit decrementer and the rest without changing the raw counter |
| Icount.TcgCpu.Fold | tools/qemu-2.5.0/cpus.c:1480-1483 | taking back what is left does not change the raw counter |
| Icount.TcgCpu.Expired | tools/qemu-2.5.0/cpu-exec.c:537-559 | a refill fills the decrementer from the whole budget, up to 0xffff, and executes none; otherwise the uncached block executes what the rest and the count mask allow; decrementer, rest and executed instructions add up |
| Icount.TcgCpu.RunNocache | tools/qemu-2.5.0/cpu-exec.c:187-208 | the uncached block executes its instructions up to what is left and up to the count mask, and is charged for them |
| Icount.TcgCpu.RunBlock | tools/qemu-2.5.0/include/exec/gen-icount.h:28-48 | a block runs exactly if the decrementer, negative when an interrupt is pending, covers it, and is then paid for in full |
| Icount.TcgCpu.Restore | tools/qemu-2.5.0/translate-all.c:288-296 | a block that stops early gives back the instructions it did not execute |
| Icount.TcgCpu.Execute | tools/qemu-2.5.0/cpu-exec.c:520-559 | one block runs, after at most one refill, and is charged what it executed; the loop ends if and only if an interrupt is pending or the whole budget does not cover the block |
| GdbPacket.UnhexHex | tools/qemu-2.5.0/gdbstub.c:414-455 | hextomem undoes memtohex |
| GdbPacket.HexAt | tools/qemu-2.5.0/gdbstub.c:434-445 | the two digits of each byte and their place |
| GdbPacket.DigitRead | tools/qemu-2.5.0/gdbstub.c:414-424 | digits of either case read as their value, all else as 0 |
| GdbPacket.FlipIs | tools/qemu-2.5.0/gdbstub.c:511-515 | the escaped form differs from the character in bit 5 and no other |
| GdbPacket.MemToHex | tools/qemu-2.5.0/gdbstub.c:434-445 | the loop prints two digits per byte, high half first |
| GdbPacket.HexToMem | tools/qemu-2.5.0/gdbstub.c:447-455 | the loop reads two digits per byte |
| GdbPacket.UnescapeEscape | tools/qemu-2.5.0/gdbstub.c:503-521 | reading a brace and the flipped character as one byte undoes memtox |
| GdbPacket.EscapeNoHash | tools/qemu-2.5.0/gdbstub.c:503-521 | escaped memory has no '#', '$' or '*' and does not end in a brace, so it can be a payload, and is at most twice as long |
| GdbPacket.MemToX | tools/qemu-2.5.0/gdbstub.c:503-521 | the loop escapes the four special characters and no other |
| GdbPacket.PutPacketBinary | tools/qemu-2.5.0/gdbstub.c:458-490 | the packet: dollar, payload, hash, and the low byte of the signed sum in two digits; it fits last_packet |
| GdbPacket.PacketDelivered | tools/qemu-2.5.0/gdbstub.c:1389-1462 | from idle, guest stopped, no reply outstanding, the bytes of a packet with a '#'-free payload of at most 4095 bytes are acknowledged and the payload handed over exactly |
| GdbPacket.PacketExact | tools/qemu-2.5.0/gdbstub.c:1389-1462 | a payload comes through if and only if it has no '#' and at most 4095 bytes |
| GdbPacket.ChecksumDecides | tools/qemu-2.5.0/gdbstub.c:1438-1457 | a framed payload with any two digits behind it is handed over and acknowledged if the digits are its checksum, and otherwise answered with '-' and dropped |
| GdbPacket.ChecksumDetects | tools/qemu-2.5.0/gdbstub.c:1443-1449 | changing one byte changes the checksum |
| GdbPacket.CorruptionRefused | tools/qemu-2.5.0/gdbstub.c:1438-1457 | hence a packet with one payload byte changed on its way, other than to '#', is refused |
| GdbPacket.ReplyResent | tools/qemu-2.5.0/gdbstub.c:1395-1403 | while a reply is outstanding every '-' sends it once more and changes nothing else |
| GdbPacket.ReplyAcknowledged | tools/qemu-2.5.0/gdbstub.c:1395-1414 | a '+' ends the wait, a '$' ends it and begins a packet, any other byte is ignored |
| GdbPacket.ByteStopsGuest | tools/qemu-2.5.0/gdbstub.c:1415-1418 | a byte that arrives while the guest runs stops it and is not taken for protocol |
| GdbPacket.FeedSound | tools/qemu-2.5.0/gdbstub.c:1422-1462 | whatever bytes arrive, every packet handed over is '#'-free and at most 4095 bytes |
| GdbPacket.MemoryTravels | tools/qemu-2.5.0/gdbstub.c:458-521 | memory sent escaped in a packet arrives, if it fits |
| GdbPacket.GdbState.GdbReadByte | tools/qemu-2.5.0/gdbstub.c:1389-1462 | the in-place parser does what the function on values says, for every state and byte |
| GdbPacket.GdbState.CheckLine | tools/qemu-2.5.0/gdbstub.c:1443-1457 | the checksum loop and its verdict |
| AliasSets.RetainedAreMaximal | scripts/misc/get_aliased_pair.py:139-171 | after any additions under distinct keys the retained sets are exactly the maximal ones among the added sets of a size other than one, and none contains another |
| AliasSets.OrderDoesNotMatter | scripts/misc/get_aliased_pair.py:167-171 | any order of the same additions retains the same sets |
| AliasSets.AddedReduced | scripts/misc/get_aliased_pair.py:158-171 | one addition keeps the retained sets a reduction of all added ones |
| AliasSets.AliasedSetResult.IsSubset | scripts/misc/get_aliased_pair.py:152-156 | the loop decides inclusion |
| AliasSets.AliasedSetResult.FindSuper | scripts/misc/get_aliased_pair.py:158-162 | the first loop finds out whether another set contains the new one |
| AliasSets.AliasedSetResult.DropSubsets | scripts/misc/get_aliased_pair.py:163-165 | the second loop drops exactly the sets the new one contains |
| AliasSets.AliasedSetResult.Add | scripts/misc/get_aliased_pair.py:167-171 | the dictionary after an addition, with the invariant kept |

## Left out

- PhysPageMap.SetLevel, PhysPageCompact.Compact: the node array is a sequence that is passed in and returned, so the pointers into it that the code keeps across a recursive call are indices here.
- MemoryDispatch.Dispatch.PageSet: page ranges that would split an existing leaf are excluded, where the code would take a section number for a node index; `MemoryDispatch.Build` proves that no caller passes one.
- PhysPageMap.SetLevel: the same exclusion, for the leaves below the entry.
- PhysPageMap.ChildNode: the same exclusion, for an entry that is itself a leaf.
- MemoryDispatch.Build: reference counts, RCU publication and the freeing of the previous dispatch are not modelled; the sections of the view are disjoint, as the flat view guarantees.
- Rendezvous.Agreement: disassembly and KVM calls are replaced by arbitrary operand addresses and breakpoint hits, a program is started only after both vCPUs are back from their refresh and no vCPU is refreshed while the other's program runs, and the skipped-breakpoint path and the 1 ms ordering of the winner are not modelled; race_addr, which is only logged, is left out.
- AioWakeup.NoLostWakeup: memory is sequentially consistent, a new bottom half appears on the list in one step, and the list itself is a set (its links are the subject of `AioLists`); the GLib source and the epoll and Windows variants of the loop are left out.
- AioLists.ListSafety: the fields of a handler other than descriptor and deletion mark are left out, and which handlers are ready is arbitrary.
- KdumpBitmap.Output.WriteBuffer: the file is the reassembled one; the flattened record stream around each write is not modelled, and a failing write leaves no partial record.
- Kdump.WriteDumpHeader: signature, version, utsname and timestamp are one block of given bytes, and the notes are given.
- KdumpReader.DumpGuest: beyond 4 GiB the failure is proved for page areas of at most 4 GiB whose cut offset misses the header blocks, and for headers whose block counts fit their fields; longer ones may write over the place the reader looks at.
- KdumpReader.RoundTrip: the compressor is any partial function, not zlib, LZO or Snappy; the reader has one decompressor per flag value.
- ElfDump.DumpState.CreateVmcore: ELF header, note header, section header and notes are given bytes of the right length, and the filter window is unbounded.
- SoftTlb.Tlb.SetPage: addends, I/O TLB entries and attributes are left out, and the flags of the memory section are parameters; page sizes are powers of two.
- RamList.RamBlocks.RamBlockAdd: host memory, dirty bitmaps and RCU are left out.
- BlockCommit.Layer.Commit: the drivers are given by their contracts: runs of equal allocation status, zeros in a grown backing image, and failures that touch only the sectors concerned.
- DirtyBitmaps.Device.SetDirty: a bitmap is a set of granules, not the hierarchical bitmap, and the device is not resized.
- Icount.TcgCpu.TcgCpuExec: uncounted single steps, clock warp and the adaptive shift are left out.
- GdbPacket.GdbState.GdbReadByte: what the packet handler does is a parameter.
- AliasSets.AliasedSetResult.Add: the constructor of the alias set reads its types from a global of the same name; the model takes the accesses as one set.
- qmp_transaction, block jobs, DMA helpers, the monitor commands and the remaining scripts are not part of this model.
