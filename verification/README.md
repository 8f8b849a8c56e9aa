# MKS in Dafny

MKS is a small x86 microkernel: blocking messages between processes, a scheduler
with three classes of processes, and a page manager with copy-on-write. This
project models those three parts, the calendar arithmetic of the clock and the
disk loads of the boot sector, and proves what they keep, step by step and over
whole runs.

Each part is written twice. The imperative code is a class whose fields are the
source's variables: queues linked through node pointers, ready lists threaded
through process blocks, page tables that live inside physical frames, the boot
sector's counters. Its methods follow the source branch by branch. Beside it stands a model on
values; every method is proved to change the abstract state exactly as the value
model says, and the properties of runs are proved about the value model.

| file | what it holds |
|---|---|
| `Paging`, `PagingSteps` | physical memory, two-level page tables (section 4.3 of volume 3A of the Intel 64 and IA-32 manual), the accounting invariant, single writes to tables |
| `FrameAlloc`, `Faults`, `PageRanges` | allocation with its mutual recursion and the page fault inside it, the two page-fault handlers and when they return, sharing one page and several |
| `Counts`, `BootMemory` | when the frame counts stay exact; memory after boot, and the runs from there that lose a frame, overflow a count or never return |
| `MemoryRuns`, `PageAccess` | runs of faults, shares and stores against a machine with plain page copies; what the kernel can reach in them, and what user mode may read and write (section 4.6 of the same manual) |
| `Memory` | `kernel/memory.c` as a class over the frame counts and physical memory |
| `Limits` | the number of processes |
| `Scheduling`, `Fairness` | the ready lists and `schedule` on values; who takes turns |
| `ProcessTable` | `kernel/proc.c` as classes: process blocks, ready lists, scheduler |
| `Messaging`, `Rendezvous`, `MailOrder` | the four message calls on values, what they keep, who waits for whom, the order of mail |
| `Kernel`, `KernelRuns`, `KernelFairness`, `BigMessages` | messages, scheduler and clock together; properties of every run from boot |
| `TimeSlices` | how long a process keeps the processor, who takes it over, and how user time is shared |
| `MessageQueues`, `NodeTable`, `MessagePassing` | `kernel/messaging.c` as classes: nodes, queues, the pool, the calls |
| `Calendar` | `kernel_mktime` against a day-by-day calendar |
| `Boot` | the track, head and sector bookkeeping of `boot/bootsect.asm` |

One step of the kernel is one whole entry: a message call, a message from an
interrupt handler, or a clock tick. A tick that arrives in kernel mode never
switches processes (`kernel/time.c:131`). A message from an interrupt handler is
assumed not to arrive inside a message call: `int 0x80` goes through a trap gate,
which leaves interrupts on (`kernel/interrupt.c:215`, `include/asm/system.h:64`),
and such a message would call `schedule` from kernel mode.

## Where the code differs from what it says

- `big_send` compares the address of the saved partner (`dest`) where the other
  calls compare the pid stored there (`kernel/messaging.c:264`, `:272`, `:280`).
  The model passes that address as `key`, outside the range of pids. With it,
  `big_send` refuses nothing but invalid pids, and it alone can close a cycle of two
  processes waiting for each other: `KernelRuns.BigSendsDeadlock` is a run from
  boot that does, `Rendezvous.BigSendClosesCycleExactly` says before which calls
  exactly it happens, and `KernelRuns.NoCycleByPid` shows that comparing the pid
  would leave no cycle.
- When the displaced process is appended to a ready list that is not empty,
  `schedule` also steps the head past the front (`kernel/proc.c:192`, `:200`,
  `:208`). The process dropped there is put back, at the tail, by the next scan. For
  one process or an even number of the same class that still gives every process
  one turn per round; for an odd number of three or more it starves half of the
  others (`Fairness.WhoTakesTurns`, `Fairness.NeverChosenAgain`). From boot with
  three user processes that only compute, the third is never current
  (`KernelFairness.ThirdProcessStarves`).
- At frame 1021 of a 4 MB region `get_free_page` means to make the next region's page
  table in time, but page `i + 2` (`kernel/memory.c:138-145`) lies in the frame's own
  region. That region has had its table for long, so the branch is dead
  (`FrameAlloc.TriggerHasTable`) and nothing makes the table of the region that comes
  next. The first frame of a region without a table is then zeroed through an
  unmapped linear page (`kernel/memory.c:146-148`): the store faults
  (`kernel/interrupt.c:143`), `do_no_page` asks for the page table, that asks for a
  frame, and `get_free_page` finds the same frame, still counted 0. It never returns.
  It returns if and only if the first free frame lies in a region with a table, or
  no frame is free (`FrameAlloc.AllocateGot`). The boot code makes the tables of the
  first 32 MB; a machine that ends there always meets the condition
  (`BootMemory.SmallMachineEnds`). `main` uses up to 64 MB (`kernel/main.c:32-44`):
  with more than 32 MB, processes that touch new pages come to a fault that never
  returns while frame 8192 is free (`BootMemory.RunsDry`).
- `share_page` does not release the frame formerly mapped at the target
  (`kernel/memory.c:199-204`), so the counts are only upper bounds of the uses. They
  stay exact in a share if and only if nothing is mapped at the target and the target
  is not the source (`Counts.SharePageExcess`, `PagingSteps.ShareExcess`);
  `BootMemory.ShareLeaks` loses a frame in three steps from boot. Faults and new page
  tables keep them exact (`Counts.NoPageExcess`, `Counts.WpPageExcess`,
  `Counts.TableExcess`). Nothing ever frees a frame.
- The count of a frame is one byte that `share_page` never checks: the accounting
  survives a share if and only if the count is below 255
  (`PagingSteps.ShareFitsExactly`); `BootMemory.CountOverflows` is a run from boot
  that gets past it.
- The loops of `share_page` have no way out: they end if and only if there are as
  many usable frames as `Faults.Need` counts (`Faults.ShareEndsExactly`), and with
  fewer they turn for ever (`Faults.ShareWithoutFrames`,
  `BootMemory.ShareNeverReturns`).
- `do_intr_msg` does not check the address of a big message
  (`kernel/messaging.c:395-410`); `Messaging.BufferPageInside` says for which
  addresses the page lies in the caller's own segment.
- The comment at `boot/bootsect.asm:112` says the kernel starts at sector 126; the
  code, and `Makefile:43`, say 99. The model follows the code.
- `kernel_mktime` takes 2100 for a leap year; it agrees with the calendar exactly
  before 1 March 2100.

## Model

| member | source | states |
|---|---|---|
| Paging.FreeFrameIsUnused | kernel/memory.c:130-155 | under the accounting invariant a frame with count 0 lies in main memory, is mapped by no user page and is no page table |
| Paging.CountOneIsPrivate | kernel/memory.c:98-101 | the test "count is 1" of do_wp_page means that the faulting page is the only user page of its frame |
| Paging.EntryBits | kernel/memory.c:77-83 | or-ing 7 into a frame's address sets the present, writable and user bits, and no other bit of the low twelve |
| Paging.OnlyWritableChanges | kernel/memory.c:101-203 | clearing and setting bit 1 of an entry changes the writable bit alone |
| FrameAlloc.GrownKeepsPages | kernel/memory.c:130-173 | allocation changes no page a process sees and no user mapping, and only takes free frames |
| FrameAlloc.AllocateGot | kernel/memory.c:130-173 | get_free_page, with its mutual recursion and the page fault of its zero loop: it fails iff no frame is free, never returns iff the first free frame lies in a region without a page table, and else hands out that frame, zeroed, used once, mapped by no process and at its own linear page; no table is made and no other frame is taken |
| FrameAlloc.TriggerHasTable | kernel/memory.c:138-145 | when the first free frame is number 1021 of its region, the region has a page table: the branch that would make one is dead |
| FrameAlloc.HandOut | kernel/memory.c:146-150 | the first free frame, in a region with a page table, is mapped at its own linear page if it was not, zeroed and counted once; one free and one usable frame fewer, and no page of a process changes |
| FrameAlloc.TableFromFrame | kernel/memory.c:166-172 | installing the frame handed out as a page table makes exactly that directory entry present, keeps every page-table entry, takes exactly that frame, and makes no other usable frame unusable |
| Faults.CoveredStays | kernel/memory.c:130-209 | where every free frame lies in a region with a page table, whatever gives nothing back keeps that, and the usable frames are just the free ones |
| Memory.PageManager.constructor | kernel/memory.c:31-50 | mem_init establishes the accounting and the kernel's reach; exactly the frames of main memory are free, every user page shows zeros, user mode may use every mapped page, and every free frame can be handed out iff memory ends by 32 MB |
| Memory.PageManager.GetFreePage | kernel/memory.c:130-155 | where it returns: 0 iff no frame is free, changing nothing; else it leaves exactly the memory of the recursive allocation and returns its zeroed, formerly free frame |
| Memory.PageManager.MakeTableFor | kernel/memory.c:138-145 | while the trigger frame counts as used create_page_table finds its region's table; memory is as before, and the return of 0 is not reached |
| Memory.PageManager.FirstFree | kernel/memory.c:134-136 | finds the first frame with count 0 |
| Memory.PageManager.TouchFrame | kernel/memory.c:146-148 | the first store to a frame whose linear page is missing faults into do_no_page, which maps the page to that frame; otherwise nothing changes |
| Memory.PageManager.ZeroFrame | kernel/memory.c:146-148 | zeroes that frame and no other |
| Memory.PageManager.CreatePageTable | kernel/memory.c:158-173 | 0 iff the table is there, -1 iff it is missing and no frame is free, both changing nothing; 1 with exactly that entry present, for exactly one frame |
| Memory.PageManager.EnsureTable | kernel/memory.c:69-74 | the waiting loop for a page table ends after at most one turn when a frame can be had |
| Memory.PageManager.TableFrame | kernel/memory.c:75 | the frame of a present page table, inside physical memory |
| Memory.PageManager.WriteEntry | kernel/memory.c:75-83 | the word of a present table is the entry of that page, and nothing else changes |
| Memory.PageManager.DoNoPage | kernel/memory.c:63-87 | where it returns: a missing user page gets a zeroed frame of its own, writable, or no frame is free; a low page is mapped to itself; no page shows anything else, the frames taken are counted exactly, and the new memory is given by a function of the old |
| Memory.PageManager.GivePage | kernel/memory.c:80-83 | a page above 64 MB is pointed at the frame get_free_page hands out; without one nothing changes |
| Memory.PageManager.CopyPage | kernel/memory.c:52-60 | copies one frame over another and touches no third |
| Memory.PageManager.DoWpPage | kernel/memory.c:90-112 | where it returns: a protected page becomes writable in a frame of its own with the words it showed, or nothing changes because no frame is free; the new memory is given by a function of the old |
| Memory.PageManager.CopyOut | kernel/memory.c:106-108 | one count less (one byte), the copy, and the entry of the faulting page, which is all that changes |
| Memory.PageManager.DoIntrPage | kernel/memory.c:114-127 | the error code's bit 0 selects between the two faults; the step is one of the runs below, and afterwards the process may write the page, unless no frame is free |
| Memory.PageManager.EnsureSourceTable | kernel/memory.c:184-188 | the first loop of share_page ends after at most one do_no_page, with the source's table present |
| Memory.PageManager.EnsureMapped | kernel/memory.c:189-193 | the second loop ends with the source mapped, after at most one do_no_page for both loops |
| Memory.PageManager.LinkShared | kernel/memory.c:199-206 | the count (one byte), the target's entry and, from 64 MB on, the source's entry are written, and nothing else |
| Memory.PageManager.SharePage | kernel/memory.c:176-209 | given only that its loops end, it leaves the memory a function of the old one gives; for a user target, a source below 64 MB inside the kernel image and a count below 255, the target is then mapped read-only to the source's frame, readable from user mode, shows what the source showed, nothing else changed, and exactly the frames needed were taken |
| Memory.PageManager.ShareMultiPages | kernel/memory.c:212-224 | refuses unaligned addresses; else leaves the memory of amount single shares, in which every page shows what copying page after page shows |
| Memory.PageManager.ShareLoop | kernel/memory.c:217-221 | its loop carries out the amount shares, in order, each finding what it needs |
| PageRanges.SharesCopy | kernel/memory.c:212-224 | sharing several pages shows what copying them one after the other shows, overlapping ranges included |
| PageRanges.CopiedRange | kernel/memory.c:217-221 | page by page the target range then shows the source range, unless the source range runs into the target range, where it shows what was copied there before; no other page changes |
| PageRanges.RoomIsEnough | kernel/memory.c:212-224 | as many usable frames as page tables and source pages are missing, and room in the counts, let all the shares be carried out |
| PageRanges.SharesTake | kernel/memory.c:212-224 | the shares take at most one usable frame for each page table and each source page that is missing before the call |
| PageRanges.ImageFits | kernel/proc.c:81-82 | the 160 pages each process is given at boot need one usable frame |
| Faults.UnprotectByCopy | kernel/memory.c:104-108 | copying to a fresh frame keeps what every page shows and gives the faulting page a writable frame |
| Faults.UnprotectInPlace | kernel/memory.c:100-101 | making the only entry of a frame writable changes no page's contents and keeps "a writable page is alone on its frame" |
| Faults.DemandNoFrame | kernel/memory.c:81-82 | giving up without a frame leaves every page as it was |
| Faults.DemandLow | kernel/memory.c:76-77 | a page below 64 MB is mapped to the frame of its own number, and no user page changes |
| Faults.DemandMapped | kernel/memory.c:80-83 | mapping a fresh frame at a page never touched shows zeros there and the same everywhere else |
| Faults.ShareDone | kernel/memory.c:201-206 | the three writes of share_page: the target shows the source's contents, both entries are read-only, the count grows by one |
| Faults.NeedPreventsStuck | kernel/memory.c:185-198 | a share that still needs frames, and has them, can always allocate, so its loops end |
| Faults.NoPageDemands | kernel/memory.c:63-87 | do_no_page keeps the accounting and what every page shows, maps a page above 64 MB iff more usable frames are there than its table takes, and takes exactly those |
| Faults.NoPageEndsExactly | kernel/memory.c:63-87 | a test on the counts of free and usable frames before the call that holds iff do_no_page returns; and it returns without a page only when no frame is free |
| Faults.WpPageUnprotects | kernel/memory.c:90-112 | do_wp_page keeps the accounting and what every page shows; it gives the page a writable entry, or changes nothing for want of a frame |
| Faults.WpPageTakes | kernel/memory.c:98-109 | do_wp_page changes the entry alone when the page's frame is used once; else it moves one use to a frame that was free, or changes nothing |
| Faults.SharePageShares | kernel/memory.c:176-209 | share_page keeps the accounting, shows the source's contents at the target and takes exactly the frames it needs |
| Faults.ShareWithoutFrames | kernel/memory.c:184-198 | with fewer usable frames than it needs share_page is not done, and no turn of its loops changes that |
| Faults.ShareEndsExactly | kernel/memory.c:184-198 | the three loops of share_page end iff the usable frames the share needs (at most three) are there before the call |
| Counts.AllocationExcess | kernel/memory.c:130-155 | an allocation counts the frame it hands out, and nothing else |
| Counts.TableExcess | kernel/memory.c:158-173 | making a page table keeps every count exact |
| Counts.NoPageExcess | kernel/memory.c:63-87 | so does do_no_page |
| Counts.WpPageExcess | kernel/memory.c:90-112 | do_wp_page keeps every count exact |
| Counts.SharePageExcess | kernel/memory.c:176-209 | share_page keeps every count exact iff nothing is mapped at the target and the target is not the source; no count ever falls behind |
| PagingSteps.ShareExcess | kernel/memory.c:199-206 | the writes of share_page keep every count exact iff nothing was mapped at the target |
| PagingSteps.ShareFitsExactly | kernel/memory.c:202 | the accounting survives a share iff the byte that counts the frame's uses is below 255 |
| BootMemory.BootInv | boot/setup32.asm:104-138 | memory as the boot code leaves it satisfies the accounting, gives the kernel its reach and shows zeros at every user page |
| BootMemory.BootUsable | kernel/memory.c:31-50 | after boot exactly the frames of main memory below 32 MB can be handed out |
| BootMemory.SmallMachineEnds | kernel/memory.c:130-209 | in every run from boot on a machine of up to 32 MB get_free_page returns, and fails only when no frame is free |
| BootMemory.RunsDry | kernel/memory.c:130-155 | from boot on a machine of more than 32 MB, a run of faults on new pages leads to a fault that never returns although a frame is free |
| BootMemory.ShareNeverReturns | kernel/memory.c:184-198 | a state after boot, with one frame of main memory, in which share_page never returns |
| BootMemory.CountOverflows | kernel/memory.c:202 | a run of 255 steps from boot after which one more share returns and breaks the accounting |
| BootMemory.ShareLeaks | kernel/memory.c:199-204 | a run of three steps from boot after which a frame is counted that no page maps and that is no page table |
| PagingSteps.ShareKeepsInv | kernel/memory.c:201-206 | the accounting (counts bound mappings, writable means alone, free means unused, tables distinct) survives sharing |
| PagingSteps.UnshareKeepsInv | kernel/memory.c:106-108 | ... and survives the copy of a write fault, after which the page shows the old frame's words |
| PagingSteps.StoreThroughWritable | kernel/memory.c:98-109 | once do_wp_page has made an entry writable, a store through it changes the page written and no other |
| MemoryRuns.StepKeepsInv | kernel/memory.c:62-209 | the writes of each operation keep the accounting, and free no frame |
| MemoryRuns.StepRefinesPlain | kernel/memory.c:62-209 | the writes of each operation show processes what one step of a machine with plain copies of pages shows; only the first write to a page of the kernel image gives that page words of its own |
| MemoryRuns.RunRefinesPlain | kernel/memory.c:62-224 | what processes see in the states of any run is a run of that machine: copy-on-write refines plain copying |
| MemoryRuns.RunKeepsInv | kernel/memory.c:62-224 | the accounting holds in every reachable state, and a frame once used is never free again |
| MemoryRuns.StepKeepsWindow | kernel/memory.c:62-209 | each operation leaves the first 32 MB mapped to the kernel, and every page table and every frame a process maps mapped at its own linear page |
| MemoryRuns.RunKeepsWindow | kernel/memory.c:62-224 | so in every state of every run the kernel reaches each table it writes and each frame it copies; and a machine whose free frames can all be handed out stays one |
| PageAccess.OpenAllows | kernel/memory.c:62-209 | where every present entry allows it, user mode may read exactly the mapped pages and write exactly those with a writable entry |
| PageAccess.BootOpen | boot/setup32.asm:104-138 | the boot code's entries allow user access |
| PageAccess.StepKeepsOpen | kernel/memory.c:62-209 | each operation leaves every present directory entry user and writable, every present page-table entry user, and the entries below 64 MB writable |
| PageAccess.RunKeepsOpen | kernel/memory.c:62-224 | so in every state of every run from boot user mode may read exactly the mapped pages and write exactly those with a writable entry |
| PageAccess.FaultedPageIsUsable | kernel/memory.c:63-87 | after a missing page the process may read and write it, unless no frame is free |
| PageAccess.UnprotectedPageIsUsable | kernel/memory.c:90-112 | after a write fault the process may write the page, unless no frame is free |
| PageAccess.SharedPageIsReadable | kernel/memory.c:199-206 | after a share both pages may be read and neither written |
| MemoryRuns.PageKept | kernel/memory.c:62-209 | in every run a page keeps what it shows while nothing is stored in it or shared into it, and, if it shows the kernel image, no write fault hits it |
| MemoryRuns.SharedPageIsSnapshot | kernel/memory.c:176-209 | in every run, after a share each side keeps what the source showed at that moment until its own page is disturbed |
| Scheduling.AddRunningQueuesAll | kernel/proc.c:98-142 | the scan keeps the lists, and afterwards every running process other than the current one and idle is in the list of its class |
| Scheduling.ScheduleKeepsInv | kernel/proc.c:145-217 | lists stay duplicate-free, of running processes of their class, without the current process and idle |
| Scheduling.StrictPriority | kernel/proc.c:145-217 | after schedule the current process has the smallest class among the running ones, and idle is current only if nothing else runs |
| Scheduling.AtMostOneDropped | kernel/proc.c:184-212 | at most one running process is left outside the lists by schedule |
| Scheduling.MissingAfterDispatch | kernel/proc.c:184-212 | exactly which one: the front of the displaced process's list, if that list was not empty |
| Scheduling.ChargeKeepsInv | kernel/time.c:118-129 | charging a tick keeps the lists |
| Scheduling.TickChargesOnce | kernel/time.c:110-135 | a tick adds exactly one to the user and system times of all processes together, on the process that was current |
| TimeSlices.SliceGiven | kernel/proc.c:175-216 | schedule gives ten ticks to the process it leaves current, none to idle when a process that sleeps leaves it the processor, and changes nobody else's block |
| TimeSlices.StaysExactly | kernel/proc.c:145-217 | schedule leaves the current process its place iff it still runs and no other process of its class or a smaller one does |
| TimeSlices.TickCharges | kernel/time.c:118-121 | user time of the current process grows by one from user mode, its system time from kernel mode, and nobody else's times change |
| TimeSlices.TickExactly | kernel/time.c:110-135 | a tick takes the processor away iff it comes from user mode, uses up the slice, and somebody else has a claim; any other tick leaves the lists and takes one from the slice, to no less than 0 |
| TimeSlices.TickTurns | kernel/time.c:123-134 | within a class: when its time is up the current process makes way for the next in line, who gets ten ticks; any other tick leaves current, line and lists |
| TimeSlices.TurnLasts | kernel/time.c:110-135 | in runs of ticks the current process stays until the first user-mode tick at which its slice is used up, kernel-mode ticks included in the count |
| TimeSlices.TurnEnds | kernel/time.c:110-135 | ... and then it leaves, if anybody is in line |
| TimeSlices.TenTicksATurn | kernel/time.c:110-135 | in runs of user-mode ticks each turn lasts exactly ten: after 10 t ticks the cycle of those who take turns has turned t times |
| TimeSlices.CurrentAtTick | kernel/time.c:110-135 | so the process current at each tick can be read off the cycle |
| TimeSlices.EqualShares | kernel/time.c:110-135 | over a period of user-mode ticks each process that takes turns is charged exactly ten ticks of user time, and every other process none |
| TimeSlices.AcceptedCallGivesWay | kernel/messaging.c:78-381 | after every accepted call, a rendezvous with the hardware included, the caller stays current iff it still runs and no other process of its class or a smaller one does |
| TimeSlices.AcceptedHardwareMessageGivesWay | kernel/messaging.c:78-141 | the same of the current process after an accepted hardware message |
| Fairness.ScheduleTurns | kernel/proc.c:145-217 | among always running processes of the top class one call of schedule turns the cycle of the listed processes by one and keeps those outside it outside |
| Fairness.WhoTakesTurns | kernel/proc.c:184-212 | with n processes, one or an even number, all n take turns; with n odd and at least 3, (n + 1) / 2 do and (n - 1) / 2 starve |
| Fairness.ExactlyOncePerPeriod | kernel/proc.c:145-217 | a process that takes turns is current exactly once in any Period consecutive calls |
| Fairness.NeverChosenAgain | kernel/proc.c:184-212 | a starved process is never current again |
| KernelFairness.StarvesFrom | kernel/proc.c:184-212 | in any run of the kernel, a process that once starves keeps running and is never current while only the clock ticks |
| KernelFairness.ThirdProcessStarves | kernel/proc.c:98-217 | in every run from boot with three user processes and only clock ticks, the third is always running and never current |
| ProcessTable.ReadyList.Contains | kernel/proc.c:126-132 | the walk along next_ready finds a pid iff it is in the list |
| ProcessTable.ReadyList.Append | kernel/proc.c:119-138 | linking behind the tail appends and keeps head, tail and links well-formed |
| ProcessTable.ReadyList.PopFront | kernel/proc.c:158-173 | taking the front off keeps head, tail and links well-formed |
| ProcessTable.ReadyList.Rejoin | kernel/proc.c:186-211 | linking the displaced process behind the tail drops the front of a non-empty list |
| ProcessTable.Scheduler.constructor | kernel/proc.c:87-90 | the lists are empty, idle is current, the invariant holds |
| ProcessTable.Scheduler.AddRunningProc | kernel/proc.c:98-142 | the scan on the linked lists is the scan on values |
| ProcessTable.Scheduler.AddIfMissing | kernel/proc.c:107-140 | one turn of the scan links a running process that is in no list behind its class's list, and no other |
| ProcessTable.Scheduler.Dispatching | kernel/proc.c:154-217 | the choice, the displaced process and the switch, on the linked lists as on values |
| ProcessTable.Scheduler.Displace | kernel/proc.c:158-211 | the chosen process leaves its list and the displaced one rejoins its own |
| ProcessTable.Scheduler.SwitchToProc | kernel/proc.c:214-216 | the chosen process gets its slice and becomes current; the lists stay |
| ProcessTable.Scheduler.ChangeState | kernel/messaging.c:78 | putting a process to sleep or waking it changes its state only |
| ProcessTable.Scheduler.Schedule | kernel/proc.c:145-217 | schedule on the linked lists is schedule on values, and keeps the shape of the lists |
| ProcessTable.Scheduler.DoIntrClock | kernel/time.c:110-135 | the clock interrupt is the tick on values and advances jiffies by one |
| ProcessTable.Process.Charge | kernel/time.c:118-129 | one tick of user or system time, and the slice counted down to no less than 0 |
| Messaging.FindRecv | kernel/messaging.c:59-66 | the first receiver that takes the message, if any |
| Messaging.FindSend | kernel/messaging.c:156-162 | the first sender that offers one, if any |
| Messaging.FreeSlot | kernel/messaging.c:111-116 | the first pool slot without a queued message, if any |
| Messaging.BufferPageInside | kernel/messaging.c:395-410 | the page of a big message is page-aligned; it lies in its own process's segment iff the buffer starts before the segment's last page or in the last page of the 32-bit space, and in the former case inside the two-page buffer |
| Rendezvous.SmallSendKeeps | kernel/messaging.c:49-143 | small_send keeps the message invariant: one node for exactly each sleeping process, no two nodes that could meet, pool slots used once |
| Rendezvous.SmallReceiveKeeps | kernel/messaging.c:146-224 | so does small_receive |
| Rendezvous.BigSendKeeps | kernel/messaging.c:227-303 | so does big_send |
| Rendezvous.BigReceiveKeeps | kernel/messaging.c:306-381 | so does big_receive |
| Rendezvous.SmallSendRejectsExactly | kernel/messaging.c:54-118 | small_send fails iff the destination is invalid, or no receiver takes the message and the partner is blocked on the caller (for the hardware: all 1024 slots are taken) |
| Rendezvous.SmallReceiveRejectsExactly | kernel/messaging.c:151-204 | small_receive fails iff the partner is invalid, or nobody offers a message and the named partner is blocked on the caller |
| Rendezvous.BigReceiveRejectsExactly | kernel/messaging.c:311-361 | the same for big_receive |
| Rendezvous.BigSendRejectsExactly | kernel/messaging.c:232-283 | with the address compared, big_send fails iff the destination is invalid |
| Rendezvous.BigSendByPidRejectsExactly | kernel/messaging.c:261-283 | with the pid compared it would fail like the others |
| Rendezvous.SmallSendClosesNoCycle | kernel/messaging.c:83-105 | small_send makes no two processes wait for each other that did not before |
| Rendezvous.SmallReceiveClosesNoCycle | kernel/messaging.c:182-204 | nor does small_receive |
| Rendezvous.BigReceiveClosesNoCycle | kernel/messaging.c:339-361 | nor does big_receive |
| Rendezvous.BigSendByPidClosesNoCycle | kernel/messaging.c:261-283 | nor would big_send, with the pid compared |
| Rendezvous.BigSendClosesCycleExactly | kernel/messaging.c:261-303 | big_send as it is closes a cycle iff its valid destination is blocked on the caller and no receiver takes the message, and closes no other |
| Rendezvous.SmallOrderDoesNotMatter | kernel/messaging.c:49-224 | send then receive and receive then send leave the same queues, value and reported source, and both parties awake |
| Rendezvous.BigOrderDoesNotMatter | kernel/messaging.c:227-381 | the same for big messages, with the same page shared |
| MailOrder.SmallSendInOrder | kernel/messaging.c:59-142 | after small_send the mail accepted is still the mail received followed by the mail queued, for any pair of parties |
| MailOrder.SmallReceiveInOrder | kernel/messaging.c:156-180 | so after small_receive |
| MailOrder.BigSendInOrder | kernel/messaging.c:237-301 | the same for the pages of big messages after big_send |
| MailOrder.BigReceiveInOrder | kernel/messaging.c:316-337 | and after big_receive: the sender met is the first that offers, its page is the one shared, and its pid is what the receiver finds in ebx |
| Kernel.StatesAfterKeepInv | kernel/messaging.c:78-141 | sleeping and waking after a call leave the ready lists sound and exactly the node owners asleep |
| Kernel.DoKeepsInv | kernel/messaging.c:384-414 | every kernel entry (call, hardware message, tick) keeps the joint invariant of messages and scheduler |
| Kernel.CallRefusedExactly | kernel/messaging.c:384-414 | a call fails iff it names its own pid, an unknown function or an invalid partner, or nobody meets it and the partner is blocked on the caller as that call tests it |
| Kernel.HardwareRefusedExactly | kernel/messaging.c:54-119 | a hardware message fails iff the destination is invalid, or no receiver takes it and all 1024 slots are used |
| Kernel.RunKeepsInv | kernel/messaging.c:49-414 | the invariant holds in every state of every run |
| Kernel.NoProcessIsLost | kernel/proc.c:98-217 | in every reachable state a process is exactly one of current, in its class's list, blocked as owner of one node (iff it sleeps), or the one left out until the next scan |
| Kernel.LeftOutIsPutBack | kernel/proc.c:98-142 | the next scan puts the process left out back in its list |
| Kernel.PriorityHolds | kernel/proc.c:145-217 | in every reachable state since idle was first left, no running process has a smaller class than the current one |
| KernelRuns.NoMissedRendezvous | kernel/messaging.c:59-81 | in every reachable state no queued sender and queued receiver match |
| KernelRuns.CycleWasClosedByBigSend | kernel/messaging.c:261-283 | whenever two processes wait for each other, a big_send of one of them closed the cycle |
| KernelRuns.NoCycleByPid | kernel/messaging.c:261-283 | had big_send compared the pid, no run would have such a cycle |
| KernelRuns.BigSendsDeadlock | kernel/messaging.c:227-303 | a run from boot, with two processes, that ends with both blocked on each other |
| KernelRuns.MailIsFifo | kernel/messaging.c:49-224 | in every run the small messages received between two parties, as they appear in the receiver's registers, are a prefix of those accepted; what is missing is queued |
| KernelRuns.MailToAnybodyIsFifo | kernel/messaging.c:146-224 | across all senders, for a destination whose small_receive always asks for anybody |
| KernelRuns.BigMailIsFifo | kernel/messaging.c:227-381 | in every run the pages met by the receiver of big messages from one sender are a prefix of those accepted, in order; what is missing is queued |
| KernelRuns.BigMailToAnybodyIsFifo | kernel/messaging.c:306-381 | across all senders, for a destination whose big_receive always asks for anybody: no sender is overtaken |
| KernelRuns.MailIsInRegisters | kernel/messaging.c:67-71 | whichever side comes second, the receiver finds the sender and the value of the first matching message in its saved registers |
| KernelRuns.FailedCallChangesNothing | kernel/messaging.c:49-414 | a call that fails leaves all queues and process states as they were |
| KernelRuns.FailedHardwareMessageChangesNothing | kernel/messaging.c:108-119 | a hardware message that fails changes nothing, and to a valid destination fails only when all 1024 slots are queued |
| BigMessages.RunKeepsBuffers | kernel/messaging.c:285-290 | in every reachable state a queued big message names the page in its blocked owner's buffer |
| BigMessages.BigRendezvousCopies | kernel/messaging.c:245-257 | whichever side came first, the page inside the sender's buffer is shared with the page inside the receiver's |
| BigMessages.BigMessageIsSnapshot | kernel/messaging.c:384-414 | in every run the receiver's page then shows what the sender's held, until one's own page is disturbed; both pages lie inside the buffers |
| MessageQueues.MsgQueue.Append | kernel/messaging.c:131-137 | linking a node behind the tail appends it |
| MessageQueues.MsgQueue.Unlink | kernel/messaging.c:72-77 | relinking around a node found behind its predecessor removes it and keeps head, tail and links well-formed |
| MessageQueues.MsgQueue.SearchRecv | kernel/messaging.c:59-66 | the walk finds the first receiver that takes the message, and its predecessor |
| MessageQueues.MsgQueue.SearchSend | kernel/messaging.c:156-162 | the walk finds the first sender that offers one, and its predecessor |
| MessageQueues.MsgQueue.HasSender | kernel/messaging.c:83-89 | tells whether a process is blocked here sending to another |
| MessageQueues.MsgQueue.HasReceiver | kernel/messaging.c:99-105 | tells whether a process is blocked here receiving from another by name |
| NodeTable.Nodes.constructor | kernel/messaging.c:31-46 | msg_init leaves four empty queues and a free pool |
| NodeTable.Nodes.FindFree | kernel/messaging.c:108-119 | the first slot not marked as the hardware's is the first without a queued message |
| NodeTable.Nodes.SlotUsedIs | kernel/messaging.c:111-116 | a slot is marked as the hardware's iff its message is queued |
| MessagePassing.Machine.PoolAgrees | kernel/messaging.c:108-175 | between kernel entries a slot is marked as the hardware's iff its message is queued in small_send, and then it is queued exactly once |
| NodeTable.Nodes.MeetReceiver | kernel/messaging.c:67-77 | delivery writes value and sender into the receiver's saved registers and takes its node out of the queue; nobody else's registers or nodes change |
| NodeTable.Nodes.MeetSender | kernel/messaging.c:163-177 | reception writes the caller's saved registers, takes the sender's node out and frees its pool slot |
| NodeTable.Nodes.NodeFor | kernel/messaging.c:107-124 | the node of a message: on its sender's stack, or the first free pool slot, or none; in no queue yet |
| NodeTable.Nodes.PostSender | kernel/messaging.c:126-137 | a sender's node is filled in and queued last; the pool marks stay right and the other queues keep their values |
| NodeTable.Nodes.PostReceiver | kernel/messaging.c:206-219 | a receiver's node, pointing at its saved registers, likewise |
| NodeTable.Nodes.TakeSender | kernel/messaging.c:168-175 | a sender's node leaves its queue, wherever it is, and a pool slot becomes free |
| NodeTable.Nodes.WriteRegs | kernel/messaging.c:165-167 | registers of a process whose node is in no queue can change without changing any queue's value |
| NodeTable.Nodes.WaitsForSmallSender | kernel/messaging.c:83-105 | the mutual-wait check of small_send over three queues |
| NodeTable.Nodes.WaitsForSmallReceiver | kernel/messaging.c:182-204 | the check of small_receive |
| NodeTable.Nodes.WaitsForBigSender | kernel/messaging.c:261-283 | the check of big_send, for the key it compares |
| NodeTable.Nodes.WaitsForBigReceiver | kernel/messaging.c:339-361 | the check of big_receive |
| MessagePassing.Machine.constructor | kernel/main.c:44-48 | after proc_init, msg_init and mem_init the kernel is in a boot state of the run theorems |
| MessagePassing.Machine.SaveRegs | kernel/asm.s:156-159 | the caller's request is in its saved registers and nothing else changed, so it may call |
| MessagePassing.Machine.Share | kernel/messaging.c:247 | sharing the page of a big message is one step of the memory runs, and changes no queue, register or process |
| MessagePassing.Machine.Wake | kernel/messaging.c:78-79 | the partner runs again, unless it is the hardware, and somebody is chosen to run |
| MessagePassing.Machine.Sleep | kernel/messaging.c:139-141 | the caller sleeps, unless it is the hardware, and somebody is chosen to run |
| MessagePassing.Machine.SmallSend | kernel/messaging.c:49-143 | small_send on the linked queues, saved registers and process blocks does what the value model says, and returns -1 if that rejects, else 1 |
| MessagePassing.Machine.SmallReceive | kernel/messaging.c:146-224 | small_receive likewise |
| MessagePassing.Machine.BigSend | kernel/messaging.c:227-303 | big_send likewise, and it shares the page exactly when it meets a receiver |
| MessagePassing.Machine.BigReceive | kernel/messaging.c:306-381 | big_receive likewise |
| MessagePassing.Machine.DoIntrMsg | kernel/messaging.c:384-414 | a message call is one step of the kernel of the run theorems: it keeps the whole invariant, and memory makes the one step of the share or none; it returns -1 exactly for the caller's own pid, an unknown function, an invalid partner, and, when nobody meets it, a partner blocked on the caller as each call looks for it; else 1, and then the processor goes to whoever has a claim |
| MessagePassing.Machine.HardwareSend | kernel/messaging.c:49-143 | a message from an interrupt handler is such a step; it returns -1 exactly for an invalid destination, and for want of a receiver and of a free slot; else 1, and the processor goes to whoever has a claim |
| MessagePassing.Machine.DoIntrClock | kernel/time.c:110-135 | the clock interrupt is such a step; the current process loses the processor exactly when a tick from user mode uses up its slice and somebody else has a claim, and whoever runs then has ten ticks |
| MessagePassing.Machine.DoIntrPage | kernel/memory.c:114-127 | a page fault changes memory by one step of the memory runs, and no queue, register or process |
| Calendar.KernelMktime | kernel/time.c:58-80 | adds 100 to a two-digit year below 70; for every valid date with a two-digit year the result is its second in the calendar that counts day by day |
| Calendar.CountsBack | kernel/time.c:58-80 | counting day by day from 1 January 1970 reaches each date at its count of years, months and days, and only there |
| Calendar.SumIsCalendarExactly | kernel/time.c:64-76 | the kernel's sum of days equals the Gregorian count iff the date is before 1 March 2100, and never falls short |
| Calendar.PosixIsCalendar | kernel/time.c:66-76 | the formula of section 4.16 of POSIX.1-2017 counts the days of the calendar in every year from 1970 |
| Calendar.SumIsPosixExactly | kernel/time.c:58-80 | the kernel's value is the formula's iff the date is before 1 March 2100 |
| Calendar.SumGrows | kernel/time.c:58-80 | a later moment has a larger value, in every year |
| Calendar.FitsExactly | kernel/time.c:60-77 | every product and partial sum fits a signed 32-bit long iff the moment is not after 19 January 2038, 03:14:07 |
| Calendar.MonthTermIs | kernel/time.c:42-55 | the month table with its leap-year correction counts the days before the month |
| Boot.PackedTrack | boot/bootsect.asm:198-203 | packing track and sector into ch and cl loses nothing |
| Boot.Addressing | boot/bootsect.asm:92-98 | track, head and sector computed from a logical sector lead back to it |
| Boot.AddressingBack | boot/bootsect.asm:231-243 | and a logical sector computed from track, head and sector leads back to them |
| Boot.TrackStep | boot/bootsect.asm:231-243 | toggling the head, and counting the track when it was 1, at every 18th sector is division by 18 and 36 |
| Boot.LoadsApart | boot/bootsect.asm:51-55 | the three loads read sectors 1 to 1122 once each, in order, to addresses that never overlap and spare the running boot sector |
| Boot.Loader.ReadTrack | boot/bootsect.asm:190-214 | the BIOS is asked for the current track, head and sector |
| Boot.Loader.UpdateOrthl | boot/bootsect.asm:217-245 | the offset, the counts and the disk position after a read, within their 8 and 16 bits |
| Boot.Loader.NextTrack | boot/bootsect.asm:231-243 | at the end of a track head and track move on as division says |
| Boot.Loader.AimSetup | boot/bootsect.asm:92-106 | reads what the track has left, but no more than is wanted |
| Boot.Loader.AimKernel | boot/bootsect.asm:138-152 | the same with the test the other way round |
| Boot.Loader.ReadAndUpdate | boot/bootsect.asm:153-155 | one read places the next sectors behind each other from es:bx, on one track |
| Boot.Loader.LoadSetup | boot/bootsect.asm:57-72 | ten sectors from sector 1 to 0x800 |
| Boot.Loader.LoadSetup32 | boot/bootsect.asm:74-110 | terminates; 88 sectors, once each and in order, to 0x5000, never crossing a track |
| Boot.Loader.ReadSetup32 | boot/bootsect.asm:82-110 | its loop |
| Boot.Loader.LoadSegment | boot/bootsect.asm:129-156 | terminates; the 128 sectors of one 64 KB segment |
| Boot.Loader.LoadKernel | boot/bootsect.asm:114-158 | 1024 sectors to 0x10000 to 0x8FFFF in eight segments |
| Boot.Loader.LoadAll | boot/bootsect.asm:51-53 | setup, setup32 and kernel come from where Makefile:39-43 puts them |

## Left out

- Inline assembly, interrupt entry and exit (`kernel/asm.s`): of it the model uses that a call's partner and message are the saved ebx and ecx (`kernel/asm.s:156-166`), which nobody changes while the caller sleeps.
- Processes are assumed to exist before the first step; process creation and exit (`lib/fork.c`, `init_proc`, `system_task`), descriptors and task switching beyond setting the current process are not modelled. Pid 0 is assumed never to make a message call (`kernel/main.c:57`).
- The TLB, `invalidate`, and the accessed and dirty bits. Of the faults inside the kernel the model has the one of the zero loop of `get_free_page`; the page tables and frames the kernel touches elsewhere are mapped in every run (MemoryRuns.RunKeepsWindow), and directory entries from 8 on are taken to be zero at boot (`boot/setup32.asm:104-138`).
- Memory.PageManager.constructor: requires a start of at most 32 MB; `main` passes 1, 2 or 4 MB (`kernel/main.c:35-44`).
- Memory.PageManager.GetFreePage: requires that it returns, by the exact condition of FrameAlloc.AllocateGot; so do CreatePageTable and GivePage.
- Memory.PageManager.SharePage: requires that its loops end, by the exact condition of Faults.ShareEndsExactly. That the accounting survives is promised only for a count below 255 of the shared frame, since otherwise it breaks (PagingSteps.ShareFitsExactly), for a target at or above 64 MB and, below 64 MB, for a source in the kernel image, as in process creation (`kernel/proc.c:82`) and for buffers inside their segments. A target below 64 MB would leave the identity window, and a source between the image and 64 MB is a frame that get_free_page hands out to others.
- Memory.PageManager.ShareMultiPages: requires of each of its shares, when its turn comes, what lets the accounting survive it, because the next share builds on that; PageRanges.RoomIsEnough is a test on the memory before the call that suffices. The amount is not negative; with a negative one the loop runs past zero.
- Memory.PageManager.DoNoPage: requires that it returns, by the exact condition of Faults.NoPageEndsExactly; likewise Memory.PageManager.DoWpPage.
- Memory.PageManager.DoIntrPage: requires an error code that says truly whether the page is present, write faults only at or above 64 MB, since entries below are always writable (PageAccess.RunKeepsOpen), and that the handler returns.
- MessagePassing.Machine.DoIntrMsg: requires, only when a big message meets its partner, that share_page can be carried out, as above.
- Pages below main memory that processes share from the kernel image (`kernel/proc.c:82`) are shown as windows onto image frames: the image itself stays writable below 64 MB, so its contents are not part of the refinement claim, while its frames are part of the accounting.
- NodeTable.Nodes.MeetReceiver: unlinks the node before it writes the receiver's registers, where the source writes first; the two touch different storage.
- The ticks, times and pids are unbounded integers; `jiffies`, `utime` and `stime` do not wrap. In `kernel_mktime` the 32-bit bounds are stated by Calendar.FitsExactly.
- Calendar.KernelMktime: requires a month number within the table; reading the CMOS clock and BCD conversion (`kernel/time.c:82-108`) are not modelled.
- Boot.Loader.ReadTrack: is the read that succeeds; the error message and the halt after a failed BIOS read, and the display code, are not modelled.
- Console, keyboard, printing, interrupt controller, descriptor tables and the user-side wrappers of `lib/message.c` other than the page they compute.
