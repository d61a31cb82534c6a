# A verified model of a small RISC-V teaching kernel

The kernel runs on one hart with Sv39 paging, cooperative threads, a UART, a timer, a virtio block
device, a small file system and an ELF loader. This project models its five components that carry
state and proves what they are there for.

- **Memory** (`Sv39`, `PageTables`, `Mapping`, `TableGrowth`, `Ranges`, `PteWords`, `UserMemory`,
  `Clone`, `CloneTheorems`, `MemoryRuns`, `Memory`). Physical memory is a map from page numbers to pages of 4096 bytes; page
  table entries are 8 bytes in such a page, and the free list runs through the first words of the free
  pages. A ghost ledger gives each managed page one role, and a table or data page records the one
  entry that refers to it: the tables of all spaces form a tree, and no page is shared. Translation
  follows sections 4.3.2 and 4.4 of the RISC-V Privileged Architecture manual, version 20211203.
  `Memory.Manager` has the loops of `memory.c`; its methods compute the functions of the other
  modules, about which the theorems are.
- **ELF loading** (`Elf`, `ElfFiles`, `IoLit`, `IoObjects`, `ElfLoader`, `ProgramLoad`), a client of the memory
  manager and of the file system: programs come from a block of memory or from an open file.
- **Scheduler** (`Scheduler`, `SchedulerInvariant`, `SchedulerRuns`, `SchedulerEffects`,
  `ThreadLists`, `ThreadLinks`, `Threads`). Kernel code is not preempted by other threads, so a run is a sequence of thread steps,
  each up to its suspension, and of broadcasts by interrupt routines. The assertions and panics of the code are
  outcomes of the machine; those that no caller can provoke are proved unreachable, and in
  `Threads.ThreadManager` they are assertions. Its ready list and wait lists are linked through the
  threads (`ThreadLists`, `ThreadLinks`).
- **UART** (`Rings`, `RingBuffers`, `Uart`, `UartCalls`, `UartDevices`) **and timer** (`TimerModel`, `Timer`). In
  `Uart` each load and store of a field shared with the interrupt routine is a step of its own,
  including the two halves of `ier |= ...`, and the routine may come between any two.
- **Terminal** (`Terminal`): the CRLF machines of the comments in `io.c`, and the two functions that
  implement them with compaction in place, lookahead and batched writes.
- **Storage** (`Virtq`, `Vioblk`, `KfsFormat`, `Kfs`, `MkfsImage`, `Mkfs`, `RoundTrip`). Each layer refines
  a flat sequence of bytes: sectors behind the one-request virtqueue (VIRTIO 1.1, sections 2.6 and
  5.2.6), files behind the block numbers of inodes, and the image that `mkfs` writes.

`Common` and `Bytes` hold what the others share. A module whose source changes state in place is a
class whose methods are proved against functions on values; the theorems are about these functions.

## Where the code differs from what it promises

- `mkfs.c:119` lists `length / 4096 + 1` blocks for a file but lines 156-157 write only as many as the
  length needs. A file with data that comes after a file whose length is a multiple of 4096 is
  therefore looked for one block too far. `MkfsImage.FaithfulIffPacked` gives the exact condition and
  `MkfsImage.LostFile` a smallest example.
- `elf.c:251` takes away write access before lines 257-259 zero the rest of the segment.
  `Elf.SegmentLoadsIff` says when that is harmless: exactly when nothing is left to zero, or the
  segment is readable and writable. `Elf.LostWriteAccess` has an example that panics.
- `memory_set_page_flags` (`memory.c:501-505`) panics when there is no table for the address, but not
  when the entry in the table is not in use: it then makes it valid. `Ranges.SetPageFlagsIff` has the
  exact condition, and `Ranges.FlagsMapPageZero` an example.
- `memory_alloc_and_map_page` maps over a page that is mapped already (a fault at `memory.c:731` can do
  so). The old page is then neither mapped nor free; `Mapping.RemapKeeps` says so exactly.
- `timer_init` leaves `next_tick` at 0 (`timer.c:33`), so before the first timer interrupt an alarm is
  never earlier than the next tick (`timer.c:91`) and does not set the compare value: an alarm for time
  1000 wakes at 200000 (`TimerModel.FirstAlarmLate`). `TimerModel.NoDeadlineMissed` has the exact
  condition.
- The block device returns with `vio_lock` held from a read of 0 bytes or of a closed device
  (`vioblk.c:371-383`), from a write to a closed or read-only device or of 0 bytes, and from a seek
  beyond the end (`vioblk.c:780-783`, reached by `kfs.c:149` for an inode beyond the disk). The next
  call then waits for ever. `BlockDevice.locked` follows the lock, the calls require that it is free,
  and each contract says exactly when it is not released.
- `ioterm_write` does not count a leading LF that it skips (`io.c:547-551`), so `iowrite` on top of a
  terminal (`io.c:67-75`) goes on: it writes the last character of the text again, or returns 0 when
  the text is this LF alone. `Terminal.Term.IoWrite` says what is written, `Terminal.WrittenOnceIff`
  which texts go out once, and `Terminal.TwiceWritten` has an example. The claims about CR and LF are
  about `ioterm_write`.

## Model

| member | source | states |
|---|---|---|
| `Sv39.PteRoundTrip` | src/kern/memory.c:72-79 | decoding the 64-bit encoding of any page table entry gives the entry back: flags, rsw, ppn and the upper bits |
| `Sv39.PteLayout` | src/kern/memory.c:72-79 | a 64-bit word stands for an entry if and only if V, R, W, X, U, G, A and D are its bits 0 to 7 in this order, rsw its bits 8 and 9, ppn its bits 10 to 53, and the other fields its bits from 54 on |
| `Bytes.LeByte` | src/kern/elf.c:74-100 | of the encoding of multi-byte fields: byte k counts 256^k |
| `Sv39.LoadStore` | src/kern/memory.c:440-440 | storing an entry into a table page sets that entry and leaves the other 511 alone |
| `Sv39.LoadZero` | src/kern/memory.c:354-354 | a page that memset has cleared is a table without valid entries |
| `Memory.MtagRoundTrip` | src/kern/memory.c:960-996 | the tag built for a root leads mtag_to_root back to that root |
| `Memory.MtagMode` | src/kern/memory.c:960-962 | the tag says Sv39 in its top four bits, has the root's page number in its lowest 44, and no address space identifier |
| `PageTables.AllocKeeps` | src/kern/memory.c:340-359 | taking the head of the free list keeps the whole invariant: free list linked and duplicate-free, tables a tree, one role for every page; the page is zeroed |
| `PageTables.FreeKeeps` | src/kern/memory.c:377-398 | giving back a page that was handed out keeps it |
| `PageTables.FreeListWords` | src/kern/memory.c:273-283 | in memory, the first eight bytes of each free page are the address of the next one, or 0 in the last |
| `PageTables.AttachKeeps` | src/kern/memory.c:777-793 | referring to a fresh page from an empty table slot keeps it |
| `PageTables.StoreInertKeeps` | src/kern/memory.c:859-870 | storing an invalid or global entry keeps it and the free list |
| `Mapping.WalkFrame` | src/kern/memory.c:760-803 | a walk depends on the entries of tables in use only |
| `Mapping.TranslateIs` | src/kern/memory.c:84-86 | translation of an address is the algorithm of the privileged manual, section 4.3.2, run level by level from the root |
| `Mapping.WellformedBits` | src/kern/memory.c:968-972 | an address is wellformed if and only if its bits from 38 on are all 0 or all 1 |
| `Mapping.AttachTableWalk` | src/kern/memory.c:764-795 | adding an empty table changes no translation |
| `Mapping.WalkPtKeeps` | src/kern/memory.c:760-803 | with create, walk_pt succeeds exactly when the free list has a page for each missing table; it changes no translation of any space, takes exactly those pages, and returns the level-0 table that serves the address |
| `Mapping.OverwriteKeeps` | src/kern/memory.c:436-440 | storing a new page in a level-0 entry keeps the invariant, whatever the entry referred to before |
| `Mapping.RemapKeeps` | src/kern/memory.c:419-445 | mapping a page, mapped before or not: exactly one new translation to a zeroed page that was free; a user page mapped there before keeps its contents but no table refers to it any more, and it counts as handed out; every other page and role stays |
| `Mapping.MapPageKeeps` | src/kern/memory.c:419-445 | mapping an unmapped user page succeeds exactly when there is a page and the missing tables; it adds this one translation, to a zeroed page that was free, with the flags asked for and A, D and V, and changes no other |
| `Ranges.PageOf` | src/kern/memory.c:84-86 | two wellformed addresses have equal VPNs exactly when they are on the same page |
| `Ranges.PageCountIs` | src/kern/memory.c:463-468 | the pages of a range are the least number that holds its size |
| `TableGrowth.MapPageTables` | src/kern/memory.c:764-795 | mapping a page creates the missing tables on its way and no others |
| `PteWords.NewTableWord` | src/kern/memory.c:777-793 | the word that refers to a new table is its page number from bit 10 on and V |
| `PteWords.MapPageWord` | src/kern/memory.c:436-440 | mapping a page leaves in the slot of the address the word with the new page number from bit 10 on and, below, V, A, D and the flags asked for in their bits |
| `PteWords.MapRangeWords` | src/kern/memory.c:461-477 | the same for every page of a range |
| `PteWords.SetPageFlagsWord` | src/kern/memory.c:492-507 | changing flags replaces the low byte of the word and keeps all its other bits |
| `Ranges.RemapRangeKeeps` | src/kern/memory.c:461-477 | a range, mapped before or not, is mapped if and only if there is a free page for each page and each missing table, and exactly those are taken; its pages are pairwise distinct, zeroed and formerly free, with exactly these flags; the user pages mapped there before are given up; no translation outside changes, in any space |
| `Ranges.MapRangeKeeps` | src/kern/memory.c:461-477 | where nothing was mapped, the same, and no page in use changes its role or contents; three free pages for each page are always enough |
| `Ranges.UserPagesDistinct` | src/kern/memory.c:419-445 | no physical page is reached by two user addresses of different pages or spaces |
| `Ranges.SetPageFlagsKeeps` | src/kern/memory.c:492-507 | for a mapped user page, exactly this leaf's flags change, the page and the bytes stay, and no other translation changes |
| `Ranges.SetPageFlagsIff` | src/kern/memory.c:492-507 | where the tables for an address exist, changing its flags keeps the invariant if and only if a user page is mapped there or, when the flags have G, the page that the entry names is not one of a space, free or handed out |
| `Ranges.FlagsMapPageZero` | src/kern/memory.c:505-505 | an example: once the first page of a level-0 table is mapped, setting the flags of the next address, which is not mapped, maps it to physical page 0 |
| `Ranges.SetRangeFlagsKeeps` | src/kern/memory.c:522-538 | the same for every page of a range |
| `UserMemory.StoreBytesKeeps` | src/kern/elf.c:237-259 | stores at user addresses put exactly these bytes there and change no other user byte of any space, no table and no translation |
| `UserMemory.ByteIsAt` | src/kern/elf.c:237-259 | a user byte is in physical memory on the page its address translates to, at the offset of the lowest twelve bits |
| `UserMemory.StoresAreIsolated` | src/kern/memory.c:832-834 | a store through one space is invisible in every other |
| `Clone.CopySlotKeeps` | src/kern/memory.c:881-882 | one deep copy step of the clone's loops: exactly one page from the free list, referred to from this slot only |
| `Clone.CloneLeafKeeps` | src/kern/memory.c:925-952 | the loop over a level-0 table: every slot copied, global entries as they are, others to a fresh page of equal contents; it succeeds exactly when the pages suffice and takes exactly that many |
| `Clone.CloneMidKeeps` | src/kern/memory.c:891-954 | the same for a level-1 table and everything below it |
| `Clone.CloneRootKeeps` | src/kern/memory.c:856-956 | the same for the whole tree |
| `CloneTheorems.CloneSucceeds` | src/kern/memory.c:827-965 | the clone succeeds if and only if the free list holds one root and one page for each copied table and data page |
| `CloneTheorems.CloneIsFaithful` | src/kern/memory.c:827-965 | it takes exactly those pages, keeps the invariant, leaves the original and all its pages alone, and copies every walk |
| `CloneTheorems.CloneTranslates` | src/kern/memory.c:827-965 | every address translates in the clone if and only if it did in the original, with the same flags: global ones to the same page, others to a page that was free and has equal bytes |
| `CloneTheorems.ClonedWord` | src/kern/memory.c:925-952 | the word in the clone's slot for a user page has the new page number and the old low byte, and nothing else |
| `CloneTheorems.CloneIsIsolated` | src/kern/memory.c:832-834 | after cloning, a store through either space at user addresses is invisible through the other |
| `MemoryRuns.InitKeeps` | src/kern/memory.c:261-283 | the state that memory_init leaves satisfies the invariant |
| `MemoryRuns.ApplyKeeps` | src/kern/memory.c:340-965 | every allocation, free, mapping, flag change, user store and clone keeps the invariant and the set of managed pages |
| `MemoryRuns.RunConservesPages` | src/kern/memory.c:340-965 | after any run of them each managed page has exactly one role, and the pages on the free list and those in use add up to all managed pages |
| `Memory.LinkFreePages` | src/kern/memory.c:273-283 | the loop of memory_init links the pages in order and ends the list |
| `Memory.Manager.AllocatePage` | src/kern/memory.c:340-359 | the head of the list is returned zeroed, the list is its tail; none when the list is empty, where the code panics |
| `Memory.Manager.ReleasePage` | src/kern/memory.c:377-398 | the page becomes the head of the list |
| `Memory.Manager.WalkTables` | src/kern/memory.c:760-803 | NULL exactly for an address that is not wellformed or, without create, has no tables; else the table that serves it, as Mapping.WalkPt has it |
| `Memory.Manager.AllocAndMapPage` | src/kern/memory.c:419-445 | panics exactly on a bad address or without pages; else the new state is that of Mapping.MapPage; the word in the slot of the address is the one of PteWords.MapPageWord |
| `Memory.Manager.AllocAndMapRange` | src/kern/memory.c:461-477 | the loop's result is that of Ranges.MapRange for all pages the size touches |
| `Memory.Manager.HandlePageFault` | src/kern/memory.c:718-743 | a fault in the user range maps a page there, as Mapping.MapPage has it, over one that is mapped already too; outside of the range the process exits; the word in its slot then has the low byte 0xD7 |
| `Memory.Manager.SetPageFlagsAt` | src/kern/memory.c:492-507 | panics exactly on an address that is not wellformed or has no tables; else the result is that of Ranges.SetPageFlags, with any flags and any entry; the word in the slot of the address changes in its low byte only, to the flags asked for, V, A and D |
| `Memory.Manager.SetRangeFlagsAt` | src/kern/memory.c:522-538 | the result is that of Ranges.SetRangeFlags |
| `Memory.Manager.CloneLeafTable` | src/kern/memory.c:925-952 | the innermost loop, on memory updated in place, computes Clone.CloneLeaf |
| `Memory.Manager.CloneMidTable` | src/kern/memory.c:891-954 | the middle loop computes Clone.CloneMid |
| `Memory.Manager.CloneActiveSpace` | src/kern/memory.c:827-965 | the whole function computes Clone.CloneSpace of the active root and returns a tag that leads to the copy |
| `Memory.Manager.CopyToUser` | src/kern/elf.c:244-259 | byte-by-byte stores into the active space compute UserMemory.StoreBytes |
| `Elf.SegmentIsLoaded` | src/kern/elf.c:190-262 | after loading a segment, whatever was mapped there, byte vaddr+k is file[offset+k] for k < filesz and 0 up to memsz, every page has U and exactly the segment's R, W and X, and the user pages mapped there before are given up; on success and on failure no walk and no user byte off the segment's pages has changed, in any space |
| `Elf.SegmentLoadsIff` | src/kern/elf.c:199-259 | a well-formed segment is loaded if and only if it lies within the user range, there is a free page for each page and each missing table, the file holds its bytes, and it is readable and writable where zeros follow; exactly when each error is returned, and when the kernel panics |
| `Elf.LostWriteAccess` | src/kern/elf.c:251-259 | an example: loading a well-formed segment with R and X, one byte of the file and one zero panics |
| `Elf.ImageIsLoaded` | src/kern/elf.c:163-263 | for any number of page-disjoint segments, over whatever is mapped there, a successful run over all headers leaves every segment loaded and the old user pages there given up; on success and on failure every other space, every walk and user byte off the segments, and every other page's role is as before, and what could be mapped still can |
| `Elf.FreshImage` | src/kern/elf.c:163-263 | where nothing was mapped before, no user byte of any space is lost |
| `Elf.ImageTranslates` | src/kern/elf.c:204-249 | every address of a loaded segment translates to its byte with the segment's flags, unless the segment asks for flags that no leaf may have: then every access faults |
| `ElfFiles.HeaderErrorIs` | src/kern/elf.c:137-159 | of a header built field by field in the gABI's layout: it is accepted if and only if it is that of a 64-bit little-endian RISC-V executable, and else the code of the first field that is not is returned |
| `ElfFiles.PhdrFields` | src/kern/elf.c:92-101 | a program header built field by field is read back |
| `ElfFiles.HeaderIs` | src/kern/elf.c:163-185 | program header i of such a file is found at e_phoff + 56 i |
| `ElfFiles.OnlySegmentsFail` | src/kern/elf.c:163-263 | with all headers in place, loading fails with the codes of the segments' checks only |
| `ElfFiles.SegmentWords` | src/kern/elf.c:204-251 | the words of a loaded segment's pages have V, U, A and D, and R, W and X exactly for PF_R = 4, PF_W = 2 and PF_X = 1 |
| `ElfLoader.LoadOne` | src/kern/elf.c:190-262 | the body of the loop, on the I/O object and the memory manager, computes Elf.LoadSegment, and the memory that it leaves on failure |
| `ElfLoader.LoadElf` | src/kern/elf.c:112-276 | from a block of memory or an open file, elf_load returns the entry point or the code of the first failure; on success memory holds the image, whatever was mapped there, and in either case everything off the segments is as before; for every header and list of programs in the gABI's layout that the file has, the entry point is its e_entry and the programs are the segments in memory |
| `ElfLoader.ElfLoadKeeps` | src/kern/elf.c:112-276 | on success the segments that the header names are in memory; on success and on failure everything off them is as before |
| `ElfLoader.ElfLoads` | src/kern/elf.c:112-276 | for a file built in the gABI's layout: an unsupported header is refused; else its programs are loaded in order, and the result is e_entry when all are, or the first failure |
| `ElfLoader.ElfIsLoaded` | src/kern/elf.c:163-267 | loaded, such a file has given e_entry as the entry point, and its programs are in memory |
| `ElfLoader.EveryCommandLoads` | src/kern/main_shell.c:102-138 | after any number of loads into one space, of which any may have failed, memory's invariant holds, every other space is as before, and the last file, if it was loaded, is there in full |
| `IoObjects.IoObject.Read` | src/kern/io.h:206-213 | ioread on either kind gives the bytes from the position on, up to n or the end, and moves the position behind them |
| `IoObjects.IoObject.Seek` | src/kern/io.h:222-224 | ioseek on either kind sets the position unless it is beyond the end |
| `ProgramLoad.LoadProgram` | src/kern/elf.c:112-276 | a file of an mkfs image, opened by its name through the file system and loaded, puts the segments that its bytes describe in memory, over what was mapped there; everything off the segments is as before |
| `IoLit.WriteThenRead` | src/kern/io.c:287-335 | a write in two parts is one write, and reading at its position gives what was written |
| `IoLit.Lit.Read` | src/kern/io.c:287-305 | the bytes from the position on, as many as are left; the position moves behind them |
| `IoLit.Lit.Write` | src/kern/io.c:315-335 | exactly the bytes from the position on that fit are replaced |
| `IoLit.Lit.SetPos` | src/kern/io.c:381-390 | the position is set unless it is beyond the end |
| `SchedulerInvariant.InitInv` | src/kern/thread.c:72-91 | the invariant holds after thread_init |
| `SchedulerInvariant.ReadyNotEmpty` | src/kern/thread.c:487-490 | the ready list is not empty when a thread other than idle suspends |
| `SchedulerInvariant.SuspendKeeps` | src/kern/thread.c:479-508 | suspend_self fails no assertion, and then exactly one thread is RUNNING, the current one |
| `SchedulerInvariant.WaitKeeps` | src/kern/thread.c:363-381 | condition_wait keeps the invariant |
| `SchedulerInvariant.BroadcastLists` | src/kern/thread.c:383-411 | condition_broadcast keeps the lists exact and appends the waiters, in order, to the ready list |
| `SchedulerInvariant.ExitKeeps` | src/kern/thread.c:242-255 | thread_exit halts for the main thread and else keeps the invariant, so no parent goes on waiting for the thread that has exited |
| `SchedulerRuns.SpawnKeeps` | src/kern/thread.c:193-240 | given memory, thread_spawn panics only for want of a slot, and keeps the invariant |
| `SchedulerRuns.FreshConditionEmpty` | src/kern/thread.c:214-231 | nobody waits for the child_exit condition of a slot that is free, so a new thread inherits no waiters |
| `SchedulerRuns.RecycleKeeps` | src/kern/thread.c:461-477 | recycling an exited child fails no assertion and keeps the invariant, re-parenting included |
| `SchedulerRuns.JoinAnyResumedKeeps` | src/kern/thread.c:299-309 | the panic "spurious child_exit signal" is unreachable: the woken thread has an exited child |
| `SchedulerRuns.StepKeeps` | src/kern/thread.c:193-623 | no step from a state with the invariant fails an assertion; given memory for a new thread, the kernel panics if and only if a thread is spawned with all 16 slots used or joins any child without having one, and it halts exactly when main exits |
| `SchedulerRuns.RunKeeps` | src/kern/thread.c:193-623 | the same over every run: no assertion fails, and the invariant holds at its end |
| `SchedulerRuns.ListsAreExact` | src/kern/thread.c:479-599 | in every reachable state only the current thread is RUNNING, a thread is on the ready list once if READY and else not, and on a condition's list once if WAITING for it and else not |
| `SchedulerRuns.NoLostExit` | src/kern/thread.c:270-338 | a thread blocked in thread_join(t) never has t EXITED and one blocked in thread_join_any has no EXITED child; both are on the list that the exit wakes |
| `SchedulerRuns.ParentsFormATree` | src/kern/thread.c:461-477 | parent pointers lead from every thread of thrtab, through threads of thrtab, to the main thread |
| `SchedulerRuns.BoundedWaiting` | src/kern/thread.c:479-508 | a READY thread at index k runs from the (k+1)-th suspension to the next one, and not before, whatever is spawned or woken meanwhile |
| `SchedulerRuns.SuspendsSwitch` | src/kern/thread.c:490-508 | every suspension starts another thread, which was READY |
| `SchedulerRuns.WakesInOrder` | src/kern/thread.c:396-408 | a broadcast makes the waiters ready in order of arrival, and touches no other condition |
| `SchedulerEffects.InitThreads` | src/kern/thread.c:72-91 | at the start thread 0 runs, its child 15 is READY, and there is no other |
| `SchedulerEffects.SpawnEffect` | src/kern/thread.c:193-240 | the new thread has the first free slot, is READY at the end of the ready list, and a child of the thread that spawned it; nothing else changes |
| `SchedulerEffects.YieldEffect` | src/kern/thread.c:479-508 | the current thread goes to the end of the ready list, the first of that runs, and nothing else changes |
| `SchedulerEffects.WaitEffect` | src/kern/thread.c:363-381 | the current thread waits at the end of the condition's list, the first READY one runs, and nothing else changes |
| `SchedulerEffects.BroadcastEffect` | src/kern/thread.c:383-411 | whoever waited is READY behind those who were, nobody waits, and nothing else changes |
| `SchedulerEffects.ExitEffect` | src/kern/thread.c:242-255 | the thread has exited, whoever waited for a child of its parent is READY, the first READY thread runs, and nothing else changes |
| `SchedulerEffects.JoinEffect` | src/kern/thread.c:314-338 | a join of a thread that is no child has no effect; that of an exited child frees its slot and makes its children the caller's; any other waits |
| `SchedulerEffects.JoinAnyEffect` | src/kern/thread.c:270-297 | the slot of an exited child is freed, or without one the thread waits for any |
| `SchedulerEffects.ResumeEffect` | src/kern/thread.c:299-338 | a woken thread goes on with the join that it waited in |
| `SchedulerEffects.ChildStays` | src/kern/thread.c:193-623 | as long as its parent has not exited, a thread stays that parent's child at every step, until it has exited and the parent joins it |
| `SchedulerEffects.JoinAfterSpawn` | src/kern/main_shell.c:136-141 | a thread that spawns another and joins it, after any run in between, is never refused: it waits until the other has exited, and then frees its slot |
| `Threads.ThreadManager.SuspendSelf` | src/kern/thread.c:479-508 | the updates in place, of threads and linked lists, compute Scheduler.SuspendSelf and pass the assertions |
| `Threads.ThreadManager.ThreadSpawn` | src/kern/thread.c:193-240 | given memory, the first free slot from 1 on, with a READY child of the current thread at the end of the ready list, and nothing else changed; none, where the code panics, exactly when all are used |
| `Threads.ThreadManager.ThreadExit` | src/kern/thread.c:242-255 | computes Scheduler.Exit and keeps the invariant: the thread has exited, and whoever waited for a child of its parent is READY |
| `Threads.ThreadManager.ConditionWait` | src/kern/thread.c:363-381 | marks the thread, links it to the list of the condition, suspends, and so computes Scheduler.Wait and keeps the invariant |
| `Threads.ThreadManager.ConditionBroadcast` | src/kern/thread.c:383-411 | the loop along list_next passes both assertions for each waiter, and the whole computes Scheduler.Broadcast |
| `Threads.ThreadManager.RecycleThread` | src/kern/thread.c:461-477 | the loop over thrtab computes Scheduler.Recycle: the slot is free, and its children are the caller's |
| `Threads.ThreadManager.ThreadJoin` | src/kern/thread.c:314-338 | -1, and no effect, exactly for a number that is not a child's; else the child's number at once if it has exited, and a wait if not; after a join the slot is free and its children are the caller's |
| `Threads.ThreadManager.ScanChildren` | src/kern/thread.c:279-285 | the scan finds the exited child with the least number, and counts a child exactly when there is one |
| `Threads.ThreadManager.ThreadJoinAny` | src/kern/thread.c:270-297 | an exited child is joined; else the thread waits, with no exited child; the panic exactly without children; after a join the slot is free and its children are the caller's |
| `Threads.ThreadManager.JoinAnyGoesOn` | src/kern/thread.c:299-309 | the second scan always finds an exited child and recycles it |
| `ThreadLinks.Links.PushReady` | src/kern/thread.c:544-559 | among all lists, which share list_next: the ready list gets this thread at its end, and no other list changes |
| `ThreadLinks.Links.PopReady` | src/kern/thread.c:561-578 | the first ready thread leaves, and no other list changes |
| `ThreadLinks.Links.PushWaiter` | src/kern/thread.c:376-378 | the list of the condition gets this thread at its end, and no other list changes |
| `ThreadLinks.Links.WakeAll` | src/kern/thread.c:405-408 | the waiters move to the end of the ready list in order, their list is empty, and no other list changes |
| `ThreadLists.ThreadList.Insert` | src/kern/thread.c:544-559 | on the linked list: the sequence grows by this thread at its end, and only the former tail and this thread are relinked |
| `ThreadLists.ThreadList.Remove` | src/kern/thread.c:561-578 | the first thread is returned unlinked, the sequence loses it |
| `ThreadLists.ThreadList.Append` | src/kern/thread.c:582-599 | the sequences are concatenated and the second list is empty |
| `Rings.StoreDataKeeps` | src/kern/uart.c:302-309 | the data store of rbuf_put alone does not change the queue |
| `Rings.PutAppends` | src/kern/uart.c:302-309 | a put into a buffer that is not full appends the byte, although positions wrap around at 2^16 |
| `Rings.GetTakesFirst` | src/kern/uart.c:311-320 | a get takes the first byte |
| `RingBuffers.RingBuffer.Put` | src/kern/uart.c:302-309 | the same on the buffer in place |
| `RingBuffers.RingBuffer.Get` | src/kern/uart.c:311-320 | the same on the buffer in place |
| `Uart.IsrKeeps` | src/kern/uart.c:256-280 | the interrupt service routine keeps the invariant at any point where interrupts are enabled |
| `Uart.NextKeeps` | src/kern/uart.c:185-280 | so does every load, store, test and wait of a reader or writer |
| `Uart.WakeupsAndEnables` | src/kern/uart.c:185-280 | at the boundaries of thread steps: a waiting reader implies an empty receive buffer and DREIE, a waiting writer a full transmit buffer and THREIE; DREIE clear implies full, THREIE clear implies empty |
| `Uart.NoByteLost` | src/kern/uart.c:185-320 | in every reachable state the bytes received are those returned by reads, then those held by the read under way, then those in the buffer, in order; likewise for bytes accepted and sent; at most 64 are held |
| `Uart.CallsComplete` | src/kern/uart.c:201-253 | a write that returns has put in its whole text in order, however often it waited; a read returns at least one byte and at most n |
| `UartCalls.InterruptWakes` | src/kern/uart.c:256-280 | a byte that comes into an empty buffer wakes all waiting readers, each with its request, a byte that leaves a full one all waiting writers, and no other interrupt wakes or forgets anybody |
| `UartCalls.NoCallForgotten` | src/kern/uart.c:185-280 | over every run a thread whose call has begun and not returned is the current one, or waits, or has been woken: in exactly one of these places, with its own request; and nobody else is there |
| `UartCalls.LoopsGoOn` | src/kern/uart.c:185-254 | a read takes bytes until it has as many as asked for or none is left, a write puts bytes in until its text is done or the buffer is full |
| `UartDevices.Device.Isr` | src/kern/uart.c:256-280 | the routine on the device computes the machine's interrupt step; its two broadcasts make exactly the waiting threads ready |
| `UartDevices.Device.TakeBytes` | src/kern/uart.c:218-221 | the loop of uart_read, with interrupts between its loads and stores, follows the machine and returns 1 to n bytes |
| `UartDevices.Device.Write` | src/kern/uart.c:226-254 | uart_write follows the machine; when it returns, the whole text is in; when it waits, the buffer is full |
| `UartDevices.Device.Read` | src/kern/uart.c:185-224 | uart_read follows the machine; it waits exactly on an empty buffer |
| `TimerModel.SleepsAddUp` | src/kern/timer.c:70-75 | over any run of sleeps the wake-up time is the start plus the sum, or UINT64_MAX where that is smaller |
| `TimerModel.InsertKeepsSorted` | src/kern/timer.c:84-121 | insertion keeps the list sorted by wake-up time |
| `TimerModel.WakesExactlyDue` | src/kern/timer.c:153-164 | an interrupt wakes exactly the alarms with twake <= now and keeps exactly the others |
| `TimerModel.RunIsSound` | src/kern/timer.c:63-175 | over every run: sorted; each sleeper is woken once or still listed; after an interrupt the compare value is the earlier of first deadline and next tick |
| `TimerModel.NoDeadlineMissed` | src/kern/timer.c:48-171 | from timer_init on, no listed deadline is before the compare value if and only if an interrupt has come or no listed deadline is before the end of the first tick |
| `TimerModel.CompareIsEarliest` | src/kern/timer.c:161-169 | after an interrupt the compare value is the earliest of the next tick and the listed deadlines |
| `TimerModel.TicksAdvance` | src/kern/timer.c:161-162 | the next tick is the period times the number of interrupts that came later than as many ticks as before them |
| `TimerModel.FirstAlarmLate` | src/kern/timer.c:89-93 | an example: an alarm for time 1000 set before the first interrupt leaves the compare value at 200000 |
| `Timer.Alarm.Postpone` | src/kern/timer.c:72-75 | the saturating sum |
| `Timer.AlarmClock.Sleep` | src/kern/timer.c:63-121 | the insertion into the linked list computes TimerModel.Sleep, and changes nothing when the time is past; the thread then waits for the alarm |
| `Timer.AlarmClock.LinkIn` | src/kern/timer.c:84-121 | the alarm is spliced in at the head or behind the last one that wakes earlier |
| `Timer.AlarmClock.Interrupt` | src/kern/timer.c:143-175 | the loop unlinks exactly the due alarms and computes TimerModel.Interrupt; the threads of the due alarms have been woken, those of the others still wait |
| `Terminal.AnySplit` | src/kern/io.c:478-596 | successive writes of any pieces of a text put on the wire what one write of the text does |
| `Terminal.WireIsPaired` | src/kern/io.c:490-500 | on the wire every CR is followed by LF and every LF preceded by CR |
| `Terminal.FixedIffPaired` | src/kern/io.c:120-122 | output normalisation leaves a text alone if and only if it is normalised |
| `Terminal.ReadAfterWrite` | src/kern/io.c:115-147 | normalising the input of normalised output is normalising the input directly, from every state |
| `Terminal.EmptyRead` | src/kern/io.c:470-473 | input normalises to nothing only when it is a single LF after a CR |
| `Terminal.ReadIs` | src/kern/io.c:436-468 | the input machine turns every CR LF, CR and LF into one LF and keeps every other character |
| `Terminal.WriteIs` | src/kern/io.c:478-596 | the output machine turns every CR LF, CR and LF into one CR LF and keeps every other character |
| `Terminal.PlainIsKept` | src/kern/io.c:436-596 | neither machine loses, changes or moves a character that is not part of a line ending |
| `Terminal.ReadHasNoCr` | src/kern/io.c:436-468 | what is read has no CR, and a text without CR is read as it came, but for an LF after an earlier CR |
| `Terminal.Term.Read` | src/kern/io.c:406-476 | for any chunks of the raw stream the result is the one-bit machine's output; at most two raw reads, at least one character; it has no CR and every other character that is not part of a line ending, and input without CR comes as it is |
| `Terminal.Term.Compact` | src/kern/io.c:436-468 | the compaction in place computes the machine's output; the write index never passes the read index; every line ending has become one LF and every other character is kept |
| `Terminal.Term.Write` | src/kern/io.c:478-596 | lookahead and batched flushes put exactly the machine's output on the wire; a leading LF that is skipped is not counted; that is the text with every line ending as CR LF |
| `Terminal.Term.IoWrite` | src/kern/io.c:60-78 | iowrite on a terminal puts the machine's output on the wire, and the last character again after an LF that was skipped; its result is the length, or 0 exactly for a lone LF that is skipped |
| `Terminal.WrittenOnceIff` | src/kern/io.c:60-78 | a text goes out once if and only if it does not begin with a skipped LF and go on after it |
| `Terminal.TwiceWritten` | src/kern/io.c:547-551 | an example: LF and x after a CR puts x on the wire twice |
| `Terminal.Raw.Write` | src/kern/io.c:60-78 | iowrite repeats partial transfers until all is written |
| `Virtq.NextKeeps` | src/kern/vioblk.c:457-475 | every step of driver, device and interrupt routine keeps the queue's invariant, across the wrap-around of the indices |
| `Virtq.PendingIs` | src/kern/vioblk.c:471-471 | the indices differ exactly while a request is in flight, and at most one is |
| `Virtq.OwnerSeesCompletion` | src/kern/vioblk.c:470-481 | when the driver uses buffer and status again, every request has been carried out once and in order, a read has filled the buffer, and the status is OK |
| `Virtq.NoLostInterrupt` | src/kern/vioblk.c:470-475 | a sleeping driver has its request in flight or the interrupt pending |
| `Vioblk.PatchSector` | src/kern/vioblk.c:563-671 | read-modify-write of a sector changes exactly these bytes of the disk |
| `Vioblk.BlockDevice.SleepUntilWoken` | src/kern/vioblk.c:470-475 | a sleeping driver is woken, by its completion or by an interrupt that was pending, with every step of device and routine a step of the machine of Virtq |
| `Vioblk.BlockDevice.Transact` | src/kern/vioblk.c:421-481 | one request follows the machine of Virtq to its completion, however late and after however many wakeups: the buffer is the sector, or the sector the buffer |
| `Vioblk.BlockDevice.Read` | src/kern/vioblk.c:366-501 | exactly the bytes from pos up to pos+n or the end; pos moves by their number; the lock stays held exactly for n = 0 and on a closed device |
| `Vioblk.BlockDevice.Write` | src/kern/vioblk.c:509-678 | exactly the bytes from pos up to pos+n or the end are replaced; nothing on a closed or read-only device; the lock stays held exactly there and for n = 0 |
| `Vioblk.BlockDevice.SetPos` | src/kern/vioblk.c:776-788 | the position is set unless it is beyond the end, where the lock stays held |
| `KfsFormat.BlockSlice` | src/kern/kfs.c:267-287 | within a block the bytes of a file are together on the disk |
| `KfsFormat.ContentsLayout` | src/kern/kfs.c:35-50 | byte p of file i in bytes of the disk: the number of inodes at 4, the length at the start of the inode, the block numbers behind it, the data blocks behind the inodes |
| `KfsFormat.LookupIs` | src/kern/kfs.c:29-41 | the inode number found for a name is that of the first of the 63 entries, at 64 + 64 x, that has the name |
| `KfsFormat.AddrApart` | src/kern/kfs.c:366-387 | an address written for one file belongs to no other position of any file |
| `KfsFormat.BlockWrite` | src/kern/kfs.c:356-390 | one round of fs_write changes these bytes of this file and no other file, inode or boot block |
| `KfsFormat.WrittenInSteps` | src/kern/kfs.c:356-390 | writes of adjacent data compose, also in what they leave alone |
| `KfsFormat.ReadsWhatWasWritten` | src/kern/kfs.c:220-399 | the file contains at the position what was written there |
| `Kfs.FileSystem.Mount` | src/kern/kfs.c:87-108 | the boot block is read where the device is positioned; an error exactly when it is cut short; no file is open |
| `Kfs.FileSystem.StringEquals` | src/kern/kfs.c:127-127 | strcmp is 0 exactly when the names are the same string |
| `Kfs.FileSystem.FindEntry` | src/kern/kfs.c:125-133 | the first entry of that name |
| `Kfs.FileSystem.Open` | src/kern/kfs.c:117-195 | the descriptor has the inode, length and position 0; which error each failure gives; nothing else changes; the device's lock stays held exactly when the inode lies beyond the end of the disk |
| `Kfs.FileSystem.Locate` | src/kern/kfs.c:267-275 | the address of a file position through the inode's block numbers |
| `Kfs.FileSystem.Read` | src/kern/kfs.c:220-307 | exactly the file's bytes from the position on, up to n or its end, across blocks; the position moves by their number |
| `Kfs.FileSystem.Write` | src/kern/kfs.c:316-399 | exactly the file's bytes from the position on, up to its end, are replaced; every other file, all inodes, the boot block and all unused bytes stay |
| `Kfs.FileSystem.WriteAt` | src/kern/io.c:60-78 | iowrite at an address writes all of the data there |
| `Kfs.FileSystem.SetPos` | src/kern/kfs.c:467-477 | the position is set unless it is beyond the end |
| `MkfsImage.ImageLookup` | src/util/mkfs.c:87-106 | opening a file of the image by its short, distinct name finds its inode |
| `MkfsImage.ImageInode` | src/util/mkfs.c:112-133 | the inode holds the length and consecutive block numbers |
| `MkfsImage.ImageLayout` | src/util/mkfs.c:87-158 | where each field of boot block, entries and inodes, and each file's data, is in the bytes of the image |
| `MkfsImage.ListedExceedsUsed` | src/util/mkfs.c:119-157 | the blocks listed exceed those written by one for each earlier file whose length is a multiple of 4096 |
| `MkfsImage.FaithfulIffPacked` | src/util/mkfs.c:112-158 | every file is found with its bytes if and only if no file with data comes after one whose length is a multiple of 4096 |
| `MkfsImage.LastByteBeyond` | src/util/mkfs.c:119-157 | otherwise the last file with data has its last block beyond the image |
| `MkfsImage.LostFile` | src/util/mkfs.c:119-157 | an example: a one-byte file after an empty one is not found |
| `MkfsImage.ImageFsOk` | src/util/mkfs.c:112-158 | images without such files are well formed: blocks in range, and none shared |
| `Mkfs.FillEntries` | src/util/mkfs.c:87-106 | the first loop fills one entry for each file |
| `Mkfs.FillInodes` | src/util/mkfs.c:112-133 | the second loop fills one inode for each file, in memory that is not initialised |
| `Mkfs.FileBlocks` | src/util/mkfs.c:150-157 | the blocks written for a file start with its bytes |
| `Mkfs.MakeImage` | src/util/mkfs.c:87-158 | the bytes written are an image of the files |
| `RoundTrip.ReadFile` | src/kern/kfs.c:87-307 | for every list of files within the format's limits: image, mount, open and reads of any sizes give the file's bytes in order, and then nothing |
| `RoundTrip.WriteReadBack` | src/kern/kfs.c:316-477 | data written at any position of any file is read back after seeking there, and every other file still has its bytes |

## Left out

- Memory.Manager.SetPageFlagsAt: requires, of a wellformed address, that no global entry lies on the way to it. `Ranges.SetPageFlagsIff` says when the invariant holds after it.
- Memory.Manager.SetRangeFlagsAt: requires mapped user pages and flags without G, after which every page of the range is a user page with the flags asked for, and like `AllocAndMapRange` a size whose page count fits the `int` that holds it.
- Memory.Manager.AllocAndMapPage: requires, of a wellformed address, that no global entry lies on the way to it: `walk_pt` would take a page of the kernel's mapping for a table. So do `HandlePageFault` and `AllocAndMapRange`.
- Memory.Manager.AllocAndMapRange: requires besides that the range does not wrap around at 2^64.
- Memory.Manager.ReleasePage: requires a page-aligned address of a page that was handed out; the code's check for alignment has no effect.
- Memory.Manager.WalkTables: with create it requires that no global entry lies on the way to the address.
- Memory.Manager.CopyToUser: covers mapped user pages; whether their flags allow the store is decided by the caller, as in `Elf.LoadSegment`.
- ElfLoader.LoadElf: requires that every loadable segment is page-aligned, has filesz <= memsz, does not wrap around and shares no page with another segment of the file, and that no global entry lies on the way to its pages; what is mapped there does not matter. A store to a page without R and W is a panic.
- IoLit.Lit.Read: requires that position and length do not add up to 2^64 or more; so do `IoLit.Lit.Write`, `Kfs.FileSystem.Read` and `Kfs.FileSystem.Write`.
- Kfs.FileSystem.Open: requires a free descriptor and an inode number below 2^19 - 1, beyond which the code's `int` arithmetic overflows; the 64th directory entry, which lies outside the boot block, is not looked at.
- Kfs.FileSystem.Read: requires a well-formed file system (blocks in range, none shared by two files) and a descriptor of one of its inodes; so does `Kfs.FileSystem.Write`. On others the loop need not end. Block numbers and lengths are 32-bit values, with zeros in the upper half of the variables that hold them.
- Vioblk.BlockDevice.Transact: the device follows the protocol and does not fail; a failed request returns -EIO, also with the lock held.
- Vioblk.BlockDevice.Read: requires that the lock is free, for else the call does not return; so do `Vioblk.BlockDevice.Write` and `Vioblk.BlockDevice.SetPos`.
- SchedulerRuns.StepKeeps: `memory_alloc_page` (thread.c:216) panics when a thread is spawned without a free page, and `kmalloc` without heap; the machine has no memory. So with `SchedulerRuns.SpawnKeeps` and `Threads.ThreadManager.ThreadSpawn`.
- UserMemory.ByteAt: reads through the walk whatever the flags of the leaf are; `Elf.ImageTranslates` says when a program may.
- Mkfs.MakeImage: requires at most 63 files of at most 1023 listed blocks, for which the C arrays have room, and takes the short names that lines 88-97 cut out of the arguments.
- Terminal.Term.Read: the raw source blocks until it has a character; at its end the loop of `ioterm_read` would not end.
- UartDevices.Device.Read: a read of 0 bytes returns at once and is not a step; lengths are below LONG_MAX.
- Threads.ThreadManager.ThreadJoin: the read of `thrtab[tid]` before the check of `tid` is not modelled.
- Threads.ThreadManager: the members of a thread other than `id` and `list_next` are a value in the table, and pointers to threads are their numbers. A new thread's memory is taken to be zero, so that its condition has an empty list.
- `condition_wait` and `thread_exit` are single steps up to their suspension; an interrupt inside them is one before or after.
- Thread stacks and their pages: `suspend_self` (thread.c:526-530) frees an address that is not the one allocated.
- `memory_unmap_and_free_user` and `memory_space_reclaim`: the valid bit is cleared in a local copy (memory.c:642, memory.c:658), so nothing is unmapped.
- The contents of the kernel's own tables, which `memory_init` fills from linker symbols; they are parameters with the property that they refer to each other or to leaves.
- `memory_init` with no free page at all.
- Locks (lock.h:56-85): a woken waiter takes the lock without looking again. Calls of the block device and the file system are sequential.
- `fs_close`, which clears the slot opened last, and `fs_getlen`, `fs_getpos`, `fs_getblksz`, `ioread_full`, `iolit_close`: no state that matters or only easy members.
- Devices whose blocks are not of 512 bytes, feature negotiation, descriptors' contents, memory barriers, register layouts and the interrupt controller.
- Hardware overruns of the UART (`rxovrcnt`), and bytes that arrive while its receive interrupt is off.
- `thread_fork_to_user`, processes and system calls; assembly; heap, console, device registry and strings.
- Address space identifiers, TLB fences and `memory_space_switch`.
