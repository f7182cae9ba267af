# A model of the JOS kernel and its user library

Dafny proofs about the hard parts of the MIT 6.828 JOS kernel (labs 1 to 4): physical pages and
two-level page tables, environments on several CPUs under the big kernel lock, IPC, copy-on-write
fork, nested user page faults, and two small algorithms.  `dafny verify dfyconfig.toml` checks all
of it.

## How it is built

Memory, from the hardware up:

* `Paging` is the 32-bit paging format as a value: entries, walks, the *slots* that hold a counted
  reference to a page (an `env_pgdir`, a directory entry naming a page table, a user page table
  entry), and what one store into a table does to all translations and all slots.
* `Refcount` adds `pages[]` and the free list.  `Refcount.Inv` is the kernel's invariant: every
  count is the number of slots that hold the page plus the references held outside any slot, a page
  is free exactly when its count is zero, directories and page tables have one reference and are
  never mapped as data, every user entry is zero or present.
* `Pmap.Memory` is `kern/pmap.c` updating arrays in place, with the TLB of one CPU that may cache
  any translation at any time.  `UserMem` says what `user_mem_check` decides.
* `FlatVm` is what user programs see, a map from (directory, page number) to entry and page
  contents; `FlatRefine` shows that the two-level structure *is* that map, operation by operation.
* `Kernel.Kernel` is `kern/env.c`, `kern/sched.c`, `kern/trap.c` and the environment half of
  `kern/syscall.c` on `envs[]` and the CPUs; `Syscalls.System` joins it to `Pmap.Memory`: each page
  handler does exactly one `FlatVm.Call`, or fails with its code and changes no address space.
* `CowFork` is `lib/fork.c` on top of the flat map.

Concurrency: `Machine` takes the steps of N CPUs at the grain at which other CPUs can observe
them, with `Kernel.Kernel`'s methods as its steps; `EnvIds`, `RoundRobin` and `Ipc` prove facts about
its runs, `Statuses` says who may change an environment's status and what the callers are told, `Progress` that
nobody is shut out, `Misuse` gives runs that lead into the uses which the kernel does not guard against, and
`Sieve` is the pipeline of `user/primes.c`.  `SpinLock` is the lock itself, instruction by
instruction, with store buffers; `SpinLock.LockRefined` is what `Machine` takes of it.

`PageFrames`, `Stabs`, `Numbers` and `Literals` stand alone.  `Errors`, `Options` and `Word32` hold what several
modules share: error codes, a value that may be missing, 32-bit integers.

## Main results

* Memory: every count in the joined system is the number of entries that point to the page, and a
  page is free exactly when it has none (`Syscalls.System.Accounted`, from `Pmap.Memory.PageInsert`,
  `PageRemove` and `EnvFree`); an address space that comes and goes leaves the same pages free
  (`Syscalls.System.Lifecycle`); the two-level tables with a TLB are the flat map that the page calls
  update (`FlatRefine.HardwareAgrees`, `Syscalls.System.SysPageMap` and its neighbours); no run gives
  write permission out of nothing (`FlatVm.WritePermissionNotFromNothing`), and user code reaches data
  pages only (`Syscalls.System.UserStore`); `user_mem_check` is right exactly when
  `UserMem.CheckIsRightIff` says.
* Processors: each step keeps the machine's invariant if and only if it is none of three unguarded uses
  (`Machine.StepKeepsIff`, `Machine.RunKeepsInv`, with `Misuse.DestroyedTwice`,
  `Misuse.StoppedWhileRunning` and `Misuse.ReceiverWoken` for the runs that get there); what that means
  while the lock is free (`Machine.LockFree`); every change of a status and its causes
  (`Statuses.StatusChanges`, with `SwitchedOut` and `OnlyKin`); an environment that can run can be run
  (`Progress.CanRun`); the lock itself (`SpinLock.MutualExclusion`, `SpinLock.LockRefined`,
  `SpinLock.CanEnter`); ids (`EnvIds.StaleIdRejected`, `EnvIds.IdReissuedIff`); the scheduler on any
  number of CPUs (`RoundRobin.BoundedBypass`).
* Messages: `Ipc.DeliveredInOrder`, `Ipc.RecvOutcome`, and pages that arrive where they were asked for
  (`Syscalls.System.SendInAnswer`); the prime sieve is right (`Sieve.SieveIsRight`) and, however it is
  scheduled, announces every prime (`Sieve.Announces`, `Sieve.NotStuck`).
* Copy-on-write fork is a copy: `CowFork.RunIsEager`, `CowFork.ReadsAsIfCopied`, `CowFork.WritableIsSingle`;
  and its child can take its first fault (`CowFork.Environments.Fork`).
* User page faults: `PageFrames.FaultUndone`, a fault of the pop itself included
  (`PageFrames.StoreFaultSurvived`); `PageFrames.DepthBound` with `PageFrames.DepthReached`;
  `PageFrames.OuterKeptIff`.
* Algorithms: `Stabs.ExactIff`, `Numbers.Strtol`, `Numbers.RoundTrip` and `Literals.ReadsLiteral`.

## Where the code is not what its comments say

* `stab_binsearch` increments `addr` after an exact hit, so an entry at `addr + 1` that is still in
  the interval is taken for the answer (`Stabs.AdjacentIsWrong`; exactly when: `Stabs.ExactIff`).
  When all entries lie above `addr` it does not return left > right as promised, but the region before
  the first entry (`Stabs.AboveIsNotEmpty`; left > right means that there is no entry of the type at
  all: `Stabs.EmptyMeansNone`).
* `user_mem_check` adds in 32 bits, so a range that runs to the top of the address space can pass
  (`UserMem.WrappingRangePasses`); and it looks at the page table entry alone, which in the self-map
  grants a write that the directory entry does not (`UserMem.SelfMapPasses`).  Exactly when it is
  right: `UserMem.CheckIsRightIff`.
* `page_fault_handler` takes a stack pointer that has left the exception stack page, through its bottom
  or its top, for one on another stack, and does not destroy the environment as its comment promises
  of an overflow: it pushes over the first frame under way.  Which frames survive a push, for a stack
  pointer anywhere: `PageFrames.OuterKeptIff`; runs that lose one: `PageFrames.OuterLost`.
* `pp_ref` is a `uint16_t`, which user code can make wrap by mapping one page often enough; a count stays
  exact exactly below 65535 (`Refcount.IncrementedIff`).
* `sys_env_set_status` and `env_destroy` do not look whether the environment is current elsewhere or
  blocked in a receive; `Machine.StepKeepsIff` says exactly which uses break the invariant, and
  `Misuse` has a run into each of them.
* `ipc_recv` returns an `int32_t`, so a value sent from 2^31 on looks like an error code
  (`Ipc.LargeValueLooksFailed`); the sender stored tells the two apart (`Ipc.RecvOutcome`).
* `page_lookup` tests `!(*pte) & PTE_P`, which is `*pte == 0`.  It is right because every user entry
  is zero or present, which `Refcount.Inv` includes and every method keeps.
* `sys_ipc_try_send` reads `*pte` before it checks `pg`: an unmapped source is modelled as
  `-E_INVAL`.  It never sets `env_ipc_perm` to 0, and nothing is claimed of it when no page moves.
* `sys_page_alloc` and `sys_page_map` do not refuse permission bits outside `PTE_SYSCALL`.
* `duppage` ignores a failed mapping of a shared or a read-only page: fork returns, and the child lacks
  the page (`CowFork.SharedMissing`; exactly when: `CowFork.ChildCompleteIff`).  Its `PTE_SYSCALL` also
  marks shared pages copy-on-write, which is harmless because `PTE_SHARE` is tested first.
* The dispatcher at kern/syscall.c:386-407 routes five calls and drops their results; the handlers
  are called directly here.

## Hypotheses

Permissions are below 0x1000 and a page has fewer than 65535 references when one is added
(`Syscalls.System.Ready`; without it, `Refcount.IncrementedIff`).  The bits 7 and 8 of an entry, which
user code may set and page_insert also puts into directory entries, mean nothing: CR4.PSE and CR4.PGE
are clear, as the kernel never sets them.  `boot_map_region` runs before any environment exists, above
`UTOP`, and on pages of which nothing is cached.  `env_alloc` is not called while the current
environment's slot is free, between `env_free` and `curenv = NULL` (`Syscalls.System.CurLive`).
`CowFork.Allowed`: an environment does one thing at a time, `PFTEMP` is used by `pgfault` only, and
shared pages are writable; user writes between the two mappings of one `duppage`, and the destruction
of the parent there, are allowed.  `PageFrames.Allowed`: the C handler keeps the calling convention and
leaves the frames alone, and its stack pointer stays inside the exception stack page; the pop's own
store may fault.  `Sieve`: unbounded integers and stages.

## Model

| member | source | states |
|---|---|---|
| Paging.TableIsStructural | kern/pmap.c:492-512 | any page table that a walk of any live directory reaches is a page in use as a directory or a table |
| Paging.EntryBits | inc/mmu.h:63-65 | presence, writing and user access are bits 0, 1 and 2 of an entry |
| Paging.DataFrame | kern/pmap.c:413-431 | changing a page that is no directory and no table changes no translation and no reference |
| Paging.TableOwner | kern/env.c:201-207 | a page table is reached through one directory entry only, although directories share the kernel half and map themselves |
| Paging.LeafStore | kern/pmap.c:576-591 | storing one page table entry changes exactly one translation of one directory and one reference |
| Paging.DirStore | kern/pmap.c:492-512 | storing a directory entry that names a fresh or the same table keeps every page table entry and every existing translation |
| Paging.HoldersChange | kern/pmap.c:456-460 | a store that moves one slot changes each page's number of references by that slot and no more |
| Refcount.FreeIsUnreferenced | kern/pmap.c:413-431 | a page with count zero is held by no slot and has no structural role |
| Refcount.PoppedInv | kern/pmap.c:413-431 | taking and zeroing the head of the free list keeps the invariant and every translation |
| Refcount.TakenInv | kern/pmap.c:576-591 | counting a reference not yet stored keeps counts exact |
| Refcount.IncrementedIff | kern/pmap.c:576-591 | with the increment taken modulo 2^16, counts stay exact exactly when the count was below 65535; at 65535 it becomes that of a free page |
| Refcount.DroppedInv | kern/pmap.c:456-460 | dropping a reference in hand keeps counts exact, and frees the page exactly when it was the last |
| Refcount.PushedChain | kern/pmap.c:439-450 | pushing a page that is not listed keeps the links of pages[] one list without repetition |
| Refcount.PoppedChain | kern/pmap.c:413-431 | unlinking the head leaves the links of pages[] one list without repetition |
| Refcount.WithTableInv | kern/pmap.c:492-512 | entering a new page table keeps the invariant, every entry and every translation |
| Refcount.LeafFacts | kern/pmap.c:606-620 | a user page table entry is zero or present, and then names a page in use that is no table |
| Refcount.WithoutLeafInv | kern/pmap.c:639-649 | clearing an entry and dropping its reference keeps the invariant and changes one entry of the flat map |
| Refcount.WithLeafInv | kern/pmap.c:576-591 | setting an empty entry to a page in hand keeps the invariant and changes one entry of the flat map |
| Refcount.WidenedInv | kern/pmap.c:576-591 | widening a directory entry's permissions keeps the invariant and every translation |
| Refcount.WithRootInv | kern/env.c:175-210 | a copied kernel directory with its own self-map joins the live directories, and nothing of the others changes |
| Refcount.WithoutTableInv | kern/env.c:448-450 | dropping an empty page table frees exactly that table |
| Refcount.WithoutRootInv | kern/env.c:453-456 | dropping an empty directory frees exactly that directory |
| Refcount.TornDown | kern/env.c:413-462 | once a directory is gone each page's count has dropped by exactly the number of its references in that directory |
| Refcount.FreeSetDetermined | kern/pmap.c:413-460 | which pages are free is determined by the references of the live directories alone |
| Refcount.ReleasedInv | kern/syscall.c:184-187 | giving back a page that was allocated and never mapped keeps the invariant |
| Refcount.UserWritesDataOnly | kern/env.c:201-207 | a page that user code may write is a data page in use: never a directory, a table or a free page |
| Refcount.SealedKept | kern/pmap.c:576-649 | no change of user entries makes a page of the kernel's half writable by user code |
| Refcount.KernelLeafInv | kern/pmap.c:526-542 | a kernel mapping set at boot keeps the invariant and changes one translation |
| Pmap.TlbAfterClear | kern/pmap.c:639-660 | after an entry is cleared, invalidating the one page makes the TLB agree again, whatever was cached in between |
| Pmap.TlbAfterSet | kern/pmap.c:576-591 | setting an empty entry needs no invalidation |
| Pmap.TlbAfterOthers | kern/env.c:413-462 | changing other directories than the loaded one keeps the TLB in agreement |
| Pmap.Memory.constructor | kern/pmap.c:332-394 | the boot state satisfies the invariant, with exactly the reserved pages in use |
| Pmap.Memory.PageInit | kern/pmap.c:332-394 | page 0, the hole with the kernel and page 7 have count 1; all other pages, and no page twice, are on the free list |
| Pmap.ReservedIs | kern/pmap.c:332-394 | the bytes in use after page_init are those of page 0, of the hole and the kernel behind it, and of the page at 0x7000 |
| Pmap.Memory.PageAlloc | kern/pmap.c:413-431 | the head of the free list, unlinked and zeroed if asked, or nothing when there is none; invariant and TLB agreement kept |
| Pmap.Memory.PageFree | kern/pmap.c:439-450 | panics exactly for a page that is referenced or linked; else pushes it |
| Pmap.Memory.PageDecref | kern/pmap.c:456-460 | drops one reference, frees the page exactly when it was the last, and never panics |
| Pmap.Memory.PgdirWalk | kern/pmap.c:492-512 | a pointer to the entry; fails exactly when there is no table and none is to be made or no page is free; changes no entry and no translation |
| Pmap.Memory.PageLookup | kern/pmap.c:606-620 | what the reference translator check_va2pa finds, and the place of the entry |
| Pmap.Memory.PageRemove | kern/pmap.c:639-649 | deletes the page from the flat map and nothing else, drops its count by one, keeps the invariant and the TLB in agreement |
| Pmap.Memory.TlbInvalidate | kern/pmap.c:655-660 | drops the one translation exactly when the directory is the current one or there is none |
| Pmap.Memory.CountAndClear | kern/pmap.c:583-585 | counting the new reference first and then clearing what was mapped empties the entry and cannot free the page, even where the page is re-inserted |
| Pmap.Memory.ReplacePage | kern/pmap.c:583-590 | the part of page_insert after its walk updates one page of the flat map, whatever was mapped there |
| Pmap.Memory.PageInsert | kern/pmap.c:576-591 | updates one page of the flat map, or fails for lack of memory and changes nothing; keeps counts exact, data pages, other directories and TLB agreement; page_free's panic is not reached |
| Pmap.Memory.EnvSetupVm | kern/env.c:175-210 | a new directory that maps nothing below UTOP, other directories unchanged |
| Pmap.Memory.UnmapTable | kern/env.c:441-446 | the inner loop of env_free empties one page table of the directory and touches no other directory |
| Pmap.Memory.UnmapAll | kern/env.c:430-451 | the two nested loops empty the directory's user half and give the tables back, touching no other directory and no data |
| Pmap.Memory.EnvFree | kern/env.c:413-462 | the directory and all it mapped are given back: each count drops by the directory's references, other directories and data are unchanged, and the loaded directory is not the freed one |
| Pmap.Memory.UserMemCheck | kern/pmap.c:725-743 | 0 or -E_FAULT by the page test, and on failure the least address that may not be accessed |
| Pmap.Memory.BootMapRegion | kern/pmap.c:526-542 | check_va2pa finds, for each page of the region, the physical page as far from the first as the page is, around 2^20, with exactly the permissions asked for; every other page as before; or panics when no page is free; keeps the kernel half closed to user stores unless asked for both PTE_W and PTE_U |
| Pmap.RegionReads | kern/pmap.c:526-542 | the same, page by page |
| Pmap.Memory.UserStore | kern/env.c:201-207 | a store by user code through any cached translation changes no translation, no table and no count |
| UserMem.PagesAreBytes | kern/pmap.c:725-743 | without wrap-around, and for writing below the self-map, the page test passes exactly when the processor grants the user every byte of the range |
| UserMem.CheckIsRightIff | kern/pmap.c:725-743 | the exact condition, wrap-around, empty ranges and the self-map included, under which the page test passes exactly the ranges of which the processor grants every byte |
| UserMem.AccessibleIs | kern/pmap.c:725-743 | in a live directory the page table entry tells what both levels grant, except for writing in the self-map |
| UserMem.SelfMapPasses | kern/pmap.c:725-743 | a check for writing passes on the self-map page of any page table, where the processor refuses the store |
| UserMem.WrappingRangePasses | kern/pmap.c:725-743 | a range at the top of the address space that passes although none of it may be accessed |
| UserMem.FirstBad | kern/pmap.c:735-739 | the recorded address is the first byte of the range that may not be accessed |
| FlatVm.DoKeepsGood | kern/syscall.c:161-271 | every page call leaves exactly the mapped pages with contents |
| FlatVm.AllocSeen | kern/syscall.c:161-189 | what programs see of it: exactly when PTE_U and PTE_P are asked for, one page of zeroes that nobody else has, with the permissions asked for; nothing else changes |
| FlatVm.MapSeen | kern/syscall.c:207-248 | exactly when the source is mapped, PTE_U and PTE_P are asked for and writing only if it was allowed, the target shows the source's page under the permissions asked for; nothing else changes |
| FlatVm.SendSeen | kern/syscall.c:321-342 | exactly when the sender's page allows what is asked for, the receiver sees it so; nothing else changes |
| FlatVm.UnmapSeen | kern/syscall.c:257-271 | one page, or with an exit one address space, is gone and all else is seen as before |
| FlatVm.StoreSeen | kern/syscall.c:207-248 | a store is seen through every mapping of its page and through no other |
| FlatVm.NoWriteGained | kern/syscall.c:161-271 | a call that leaves a page in use gives no write permission on it that it had not |
| FlatVm.WritePermissionNotFromNothing | kern/syscall.c:161-342 | over any run of page calls, sends, exits and user stores, a page in use with no writable mapping gains none before it is freed and allocated again |
| FlatRefine.MappedPage | kern/pmap.c:606-620 | what the flat map shows is a present entry naming a data page that is neither free nor a table |
| FlatRefine.HardwareAgrees | kern/pmap.c:983-995 | a walk by the hardware finds exactly what the flat map says, with the permissions of the page table entry |
| FlatRefine.InsertIsEnter | kern/pmap.c:576-591 | page_insert of a mapped page is the update of the flat map, contents included |
| FlatRefine.InsertIsFresh | kern/syscall.c:161-189 | page_alloc and page_insert are the update of the flat map with a zero page |
| FlatRefine.RemoveIsRemove | kern/pmap.c:639-649 | page_remove is deletion from the flat map, and the page is gone exactly when nothing else maps it |
| FlatRefine.FreeIsRemoveAll | kern/env.c:413-462 | env_free is the deletion of one address space from the flat map |
| FlatRefine.SetupIsEmpty | kern/env.c:175-210 | env_setup_vm leaves the flat map as it is |
| Syscalls.System.constructor | kern/env.c:117-130 | a kernel that has just booted satisfies the joint invariant, which includes that no page is held but by entries and since page_init |
| Syscalls.System.SysPageAlloc | kern/syscall.c:161-189 | each error code exactly when it is due; on success one zero page that was in use nowhere is mapped, on failure no address space changes |
| Syscalls.System.SysPageMap | kern/syscall.c:207-248 | each error code exactly when it is due, write permission only from a writable mapping; on success one mapping added, on failure none |
| Syscalls.System.SysPageUnmap | kern/syscall.c:257-271 | each error code exactly when it is due; on success one mapping gone |
| Syscalls.System.SendPage | kern/syscall.c:321-342 | the page of a send is mapped at the receiver exactly when it may be sent, is wanted and there is memory |
| Syscalls.System.SysIpcTrySend | kern/syscall.c:311-349 | does to the environments what the machine's send does, and to the address spaces one page send or nothing |
| Syscalls.System.SendInAnswer | kern/syscall.c:311-375 | at any point of any run, a page sent in answer to a receive is mapped at the address of the receiver's call, and env_ipc_perm is the sender's perm |
| Syscalls.System.EnvAlloc | kern/env.c:220-281 | error codes exactly when due; else the first free slot gets a fresh id and a directory of its own that maps nothing |
| Syscalls.System.EnvFree | kern/env.c:413-462 | slot, directory and mappings are given back, other address spaces and their contents unchanged |
| Syscalls.System.EnvRun | kern/env.c:519-550 | the loaded directory of the CPU that switches is the new current environment's and nothing stale is cached |
| Syscalls.System.SchedHalt | kern/sched.c:53-96 | a CPU that halts has loaded the kernel's directory and has no environment |
| Syscalls.System.Apply | kern/syscall.c:161-271 | mapping and unmapping in one address space touches no other directory and holds no page back |
| Syscalls.System.Accounted | kern/pmap.c:439-460 | between any two handlers each count is the number of entries that point to the page, plus one for pages in use since page_init, and a page is free exactly when it has neither |
| Syscalls.System.UserStore | kern/env.c:201-207 | in the joined system a store by user code changes one data page and no translation, with nothing asked of the kernel half |
| Syscalls.System.Lifecycle | kern/env.c:220-281 | env_alloc, any maps and unmaps of new and of other environments' pages, then env_free: no panic, the free pages are those of before and every directory translates as before |
| Machine.NextIdValid | kern/env.c:234-237 | the next id of a slot is positive, names the slot, and is the next generation or the first |
| Machine.StepKeepsIff | kern/syscall.c:105-122 | a step of any CPU keeps the whole invariant exactly when it is none of three uses that the kernel does not guard against |
| Machine.StepKeeps | kern/trap.c:287-348 | every allowed step of every CPU keeps lock discipline, distinct current environments, receive states, ids and free list |
| Machine.StatusBreaks | kern/syscall.c:105-122 | setting the status of an environment current elsewhere, or waking a receiver, breaks the invariant at once |
| Machine.DestroyBreaks | kern/env.c:469-487 | destroying an environment that is already dying elsewhere breaks the invariant at once |
| Misuse.DestroyedTwice | kern/env.c:469-487 | a run on two CPUs after which destroying a child a second time breaks the invariant |
| Misuse.StoppedWhileRunning | kern/syscall.c:105-122 | a run after which stopping a child that runs on another CPU breaks the invariant |
| Misuse.ReceiverWoken | kern/syscall.c:105-122 | a run after which waking a child that is blocked in a receive breaks the invariant |
| Machine.RunKeepsInv | kern/sched.c:11-96 | every state of every run of N CPUs satisfies the invariant |
| Machine.LockFree | kern/env.c:469-550 | whenever the lock is free: no environment is current on two CPUs, current ones are running or dying, and every running or dying one is current on one |
| Machine.OneHolder | kern/trap.c:301-317 | at most one CPU is past acquisition, a halted CPU does not hold the lock, one that spins does not hold it already |
| Machine.ReleasedOnExit | kern/sched.c:76-82 | the lock is released by its holder only, in env_run or sched_halt, and leaves that CPU in user code or halted |
| Statuses.StatusChanges | kern/env.c:413-550 | over every run and for every environment: each change of its status has one of seven causes, and each cause its effect: allocation, destruction by itself or its parent, collection of a dying one, a blocking receive, a set_status by itself or its parent, an answer to its receive, sched_yield |
| Statuses.SwitchedOut | kern/env.c:539-545 | an environment that loses its CPU in sched_yield while it runs is runnable |
| Statuses.OnlyKin | kern/env.c:73-109 | nobody but itself, its parent and the kernel stops or destroys an environment |
| Statuses.HaltsWhenIdle | kern/sched.c:32-96 | sched_yield runs an environment exactly when one is runnable or the current one still runs; it halts only while another CPU has one, and enters the monitor only when none is left |
| Statuses.RunCounts | kern/env.c:544-546 | env_runs goes up by one, modulo 2^32, exactly when a CPU enters user mode with the environment, and starts at 0 |
| Statuses.StepCounts | kern/env.c:239-246 | an environment's parent is what allocated it, for as long as it lives, and it starts with eax 0 |
| Statuses.ForkedChild | kern/syscall.c:78-96 | sys_exofork returns the id of a child that its parent may act on, that does not run and that will see 0; or the error that is due |
| Statuses.ResultTells | kern/syscall.c:99-122 | what sys_env_set_status and sys_env_destroy return, in terms of the ids and parents of the environments |
| Statuses.SendTells | kern/syscall.c:311-349 | what sys_ipc_try_send returns: 0 exactly when somebody who waited has been answered, and each error exactly when or only when it is due |
| Progress.NotStuck | kern/trap.c:287-348 | at every point of every run each CPU can go on, unless it is in the monitor or waits for a lock that another has |
| Progress.CanRun | kern/sched.c:11-48 | at every point of every run, on any number of CPUs, a runnable environment can still be run |
| Kernel.Kernel.constructor | kern/env.c:117-130 | the free list names all slots in order, and the machine is in its initial state |
| Kernel.Kernel.Envid2Env | kern/env.c:73-109 | the slot that the id names, refused when stale, free or not permitted |
| Kernel.Kernel.EnvAlloc | kern/env.c:220-281 | error codes exactly when due; else the machine's allocation |
| Kernel.Kernel.EnvFree | kern/env.c:458-461 | the slot returns to the head of the free list |
| Kernel.Kernel.EnvDestroy | kern/env.c:469-487 | a running environment of another CPU becomes dying, any other is freed |
| Kernel.Kernel.EnvRun | kern/env.c:519-550 | the machine's context switch, lock released; what it does to the environment switched out is Statuses.SwitchedOut |
| Kernel.Kernel.SchedYield | kern/sched.c:11-48 | the loop picks the first runnable slot after the current one, else the current, else halts |
| Kernel.Kernel.SchedHalt | kern/sched.c:53-96 | halts, or enters the monitor exactly when no environment is left |
| Kernel.Kernel.SysExofork | kern/syscall.c:78-96 | the machine's exofork: a child of the caller that does not run and will see 0 |
| Kernel.Kernel.SysEnvSetStatus | kern/syscall.c:105-122 | the machine's change of status, with its error codes |
| Kernel.Kernel.SysIpcRecv | kern/syscall.c:362-375 | the machine's receive: an unaligned address is refused, else the caller blocks and its address is kept, as Ipc.AskedFor says |
| Kernel.Kernel.StoreResult | kern/trap.c:253-257 | the caller's eax gets what the handler returned, and nothing else changes |
| Kernel.Kernel.Deliver | kern/syscall.c:343-348 | the receiver is made runnable with the message of this sender |
| Kernel.Kernel.TrapEntry | kern/trap.c:301-317 | a CPU takes the lock on entry exactly once, from user code or from the halted state |
| Kernel.Kernel.TrapCollect | kern/trap.c:317-324 | a dying environment is freed at its next trap, any other goes on to dispatch |
| Kernel.Kernel.TrapReturn | kern/trap.c:341-347 | back to the current environment if it still runs, else to the scheduler |
| EnvIds.IdAfterIs | kern/env.c:234-237 | after n allocations of a slot its generation has advanced n places around 1 to 2^19 - 1 |
| EnvIds.IdReissuedIff | kern/env.c:234-237 | a slot reissues an id after 2^19 - 1 allocations and multiples of that, and never otherwise |
| EnvIds.LiveIdsDistinct | kern/env.c:226-277 | in any run live ids are positive, name their slots and are distinct |
| EnvIds.IdAlong | kern/env.c:220-281 | along any run a slot's id changes by allocation only |
| EnvIds.StaleIdRejected | kern/env.c:73-109 | in any run envid2env rejects an id for as long as its slot has been allocated again up to 2^19 - 2 times |
| RoundRobin.ScanIsFirst | kern/sched.c:32-42 | the scan finds the first runnable slot in circular order |
| RoundRobin.RankDecreases | kern/sched.c:32-42 | each pick of another environment brings the scan nearer to a runnable one |
| RoundRobin.TurnNearer | kern/sched.c:32-47 | a scheduling step of the machine that passes a runnable environment over leaves the CPU nearer to it |
| RoundRobin.BoundedBypass | kern/sched.c:32-47 | over any run of any number of CPUs: while an environment stays runnable, each CPU calls sched_yield fewer than NENV times, and NENV more for each call it makes with no current environment |
| RoundRobin.YieldPicks | kern/env.c:539-545 | in the machine, what the scan finds from the current slot on becomes current |
| Ipc.DeliveredInOrder | kern/syscall.c:311-375 | at every point of every run the messages sent to an environment are those it has read, in order, then the one that waits; one receive per send |
| Ipc.SendConsumesReceive | kern/syscall.c:311-349 | a successful send uses up exactly one outstanding receive |
| Ipc.NoSecondSend | kern/syscall.c:311-349 | between two successful sends to an environment it made a receive of its own |
| Ipc.StaysAnswered | kern/syscall.c:343-348 | until the next receive nobody else's send succeeds and value and sender stay |
| Ipc.IpcSend | lib/ipc.c:51-70 | against any sequence of machines: retries, with a yield, exactly while the receiver does not wait; the call that finds it waiting is the last and hands over the message; any other error panics |
| Ipc.IpcRecvReturn | lib/ipc.c:22-41 | with a positive sender id, sender 0 is stored exactly on failure; on success the sender and the unsigned reading of the int32_t returned are the message that the kernel shows |
| Ipc.SendIsTaken | kern/syscall.c:311-349 | each successful send of a run is the last call of an ipc_send |
| Ipc.SendersPositive | kern/syscall.c:343-348 | over any run, every message sent carries a positive sender id |
| Ipc.RecvOutcome | lib/ipc.c:22-41 | over any run, once a call of sys_ipc_recv is refused or answered and with what it left in eax: the sender and permissions stored are 0 when it was refused, the sender only then; the sign of the return value tells that exactly unless the value sent is 2^31 or more; and message and page permissions are those of a send made since the call |
| Ipc.CallerFinds | kern/syscall.c:343-375 | over any run, up to the caller's next system call: its address is kept, its eax is -E_INVAL when its receive was refused and 0 once it is answered, and then there is the send that answered it |
| Ipc.AskedFor | kern/syscall.c:362-375 | until the caller's next system call, and so while it waits, env_ipc_dstva is the address of its last receive |
| Ipc.LargeValueLooksFailed | lib/ipc.c:22-41 | the value 0x80000000 is returned as a negative number |
| Sieve.StepKeeps | user/primes.c:13-52 | every rendezvous and local action keeps: each stage has received what its left neighbour dealt with and did not filter out |
| Sieve.SiftSurvivors | user/primes.c:31-35 | dropping the multiples of one more prime leaves the integers that none of the primes so far divides |
| Sieve.NextPrime | user/primes.c:20-28 | the least integer from 2 on that no prime below m divides is the next prime |
| Sieve.StagesSieve | user/primes.c:13-52 | stage k has received a prefix of the integers that the first k primes do not divide, and the primes announced are the first primes in order |
| Sieve.SieveIsRight | user/primes.c:13-52 | the same at every point of every run of the pipeline |
| Sieve.Announces | user/primes.c:13-52 | every run of the pipeline that is long enough has announced the first n primes, whatever the scheduling, for every n |
| Sieve.NotStuck | user/primes.c:13-52 | no point of any run is a deadlock |
| Sieve.EveryPrime | user/primes.c:13-52 | every run can be continued until the first n primes are announced |
| SpinLock.StepKeeps | kern/spinlock.c:60-116 | every instruction of every CPU, with its store buffer, keeps the lock's invariant |
| SpinLock.MutualExclusion | kern/spinlock.c:60-116 | in every interleaving at most one CPU is between the two xchgs, neither panic is reached, cpu agrees with the owner, and the owner reads the last values stored under the lock |
| SpinLock.LockRefined | kern/spinlock.c:60-116 | each step leaves the owner, or takes a free lock, or frees the lock of the CPU that steps |
| SpinLock.OwnerReleases | kern/spinlock.c:76-116 | from any state the owner, left alone, gives the lock back without a panic |
| SpinLock.FreeLockTaken | kern/spinlock.c:60-75 | a CPU that wants a free lock, left alone, gets it |
| SpinLock.CanEnter | kern/spinlock.c:60-116 | at every point of every interleaving each CPU can still get the lock |
| SpinLock.WrongUsePanics | kern/spinlock.c:41-44 | taking the lock twice and giving back a lock that one does not hold end in a panic |
| CowFork.StepIsEager | lib/fork.c:14-129 | each system call of fork and pgfault, each store, allocation, destruction of a child and exit does what the eager machine does, copying when duppage is done or its parent destroyed, and nothing on a fault |
| CowFork.StepKeeps | lib/fork.c:14-129 | each of those steps keeps: a writable page that is not shared has one mapping, but for a duppage under way |
| CowFork.StepIsCall | lib/fork.c:14-129 | each step but pgfault's copy does to the address spaces what the kernel does for its system call, or the processor for its store |
| CowFork.RunIsEager | lib/fork.c:98-129 | over any run of any environments the copy-on-write state stands for the eager machine's |
| CowFork.ReadsAsIfCopied | lib/fork.c:98-129 | every running environment reads what it would read had each fork copied its pages, and may write where it might then |
| CowFork.WritableIsSingle | lib/fork.c:61-80 | at every point of every run a writable page that is not shared has no second mapping, but the one a duppage under way has made in a child that does not run |
| CowFork.LoadedIsInv | kern/env.c:290-384 | a loaded program, with pages of its own, satisfies the invariant |
| CowFork.FaultStep | lib/fork.c:14-48 | none of pgfault's four steps changes what any environment can read |
| CowFork.DumbDupIsCopy | user/dumbfork.c:25-38 | the eager machine's copy is what dumbfork's duppage does |
| CowFork.Environments.Pgfault | lib/fork.c:14-48 | panics exactly unless a copy-on-write page was written and there is memory; else the page is writable, private and reads as before |
| CowFork.Environments.Duppage | lib/fork.c:61-80 | panics exactly when a mapping of a writable or copy-on-write page fails; else the child's page reads as the parent's exactly when its mapping found memory, and the parent's as before |
| CowFork.Environments.DupAll | lib/fork.c:114-121 | the loop copies, by copy-on-write or sharing, every user page below USTACKTOP whose mapping finds memory and nothing else, or panics exactly when a call fails that is not ignored |
| CowFork.Environments.Fork | lib/fork.c:98-129 | panics exactly when a call fails that is not ignored; else the child has what the parent had below USTACKTOP where there was memory, its upcall is set, and its first page fault finds room for its frame on a page that nobody else has; and the parent reads what it read |
| CowFork.StackFits | lib/fork.c:122-123 | with the stack pointer anywhere outside the exception stack, a fault of the child has its frame on writable pages of its own |
| CowFork.Layout | inc/memlayout.h:120-138 | fork goes through the pages below UTOP - 2 * PGSIZE, the temporary page is the last below UTEXT, and the exception stack is the page on which faults push their frames |
| CowFork.ChildCompleteIff | lib/fork.c:61-80 | after a fork that returned the child has all the pages exactly when each found memory |
| CowFork.SharedMissing | lib/fork.c:69-70 | a parent with a shared page that the child lacks though fork has returned |
| PageFrames.FrameLoads | kern/trap.c:404-409 | the frame stored holds the interrupted registers, eip, eflags and esp |
| PageFrames.FrameLayout | inc/trap.h:46-88 | every field of struct UTrapframe is where the kernel and the upcall expect it |
| PageFrames.Env.PageFaultHandler | kern/trap.c:350-420 | panics in kernel mode, destroys without a handler or room, else stores one frame and enters the handler on it, which is the step that runs are made of |
| PageFrames.Env.PgfaultUpcallReturn | lib/pfentry.S:73-96 | instruction by instruction: the processor is as the frame says, and only the word below the trap-time stack pointer is written; or, where that word cannot be written, it stands at the store |
| PageFrames.Env.PopFromStore | lib/pfentry.S:76-96 | from the store on: everything popped, or a fault that changes nothing |
| PageFrames.PopLoads | lib/pfentry.S:73-96 | the store and the pops behind it give back exactly what the frame holds |
| PageFrames.ScratchApart | kern/trap.c:397-403 | the word below the trap-time stack pointer, which receives eip, is never part of the frame |
| PageFrames.ReturnRestores | lib/pfentry.S:76-96 | from its store on, a pop gives back exactly the state of its fault and leaves all outer frames intact |
| PageFrames.FaultUndone | kern/trap.c:396-413 | a fault and its return, with any computation and any nested faults between, those of the pop's own store included, restore registers, eip, eflags and esp, at any depth |
| PageFrames.StoreElsewhere | lib/pfentry.S:76 | a pop whose store faults where the kernel can still push was to return to another stack |
| PageFrames.StoreFaultSurvived | lib/pfentry.S:76 | a run in which the pop's store faults, the nested handler makes the word writable, and both pops restore what they should |
| PageFrames.PushedIffRoom | kern/trap.c:397-402 | a frame is pushed exactly when it fits in the exception stack page |
| PageFrames.DepthBound | kern/trap.c:397-402 | no fault finds room once 73 frames are on the page |
| PageFrames.DepthReached | kern/trap.c:397-402 | from any state with no fault under way, faults nested 73 deep are a run: all their frames fit |
| PageFrames.OuterKeptIff | kern/trap.c:397-400 | for a stack pointer anywhere below the frames or outside the page: a push keeps the frames under way exactly when the stack pointer is strictly inside the page, or the push writes again what is there |
| PageFrames.OuterLost | kern/trap.c:397-400 | a run, from any state with its stack elsewhere, of one fault whose handler takes esp anywhere outside the page; the next push is not refused and destroys the first frame |
| Stabs.StabBinsearch | kern/kdebug.c:59-111 | terminates, and leaves in the two pointers what the search function says |
| Stabs.TurnDecreases | kern/kdebug.c:66-97 | each turn shrinks the interval, or is an exact hit that will not hit again |
| Stabs.ExactIff | kern/kdebug.c:59-111 | for every table and every address: the answer is right exactly when no exact hit is overtaken by an entry at addr + 1 still in its interval, with the two topmost addresses, where the increment wraps, decided exactly too |
| Stabs.ExactUnlessAdjacent | kern/kdebug.c:59-111 | in particular when no two wanted entries are at addr and addr + 1, and none at addr if that is 0xffffffff |
| Stabs.AdjacentIsWrong | kern/kdebug.c:90-97 | two entries for which the search gives the second |
| Stabs.EmptyMeansNone | kern/kdebug.c:25-58 | the search gives left > right exactly when there is no wanted entry at all |
| Stabs.AboveIsNotEmpty | kern/kdebug.c:25-58 | one entry, above the address sought, for which the search does not give left > right |
| Stabs.SeekFinds | kern/kdebug.c:66-97 | between its ends the search misses no entry at the address sought |
| Numbers.Console.PrintNum | lib/printfmt.c:37-55 | emits the padding and then the digits, most significant first |
| Numbers.DigitCount | lib/printfmt.c:37-55 | the number of digits is the least that can hold the number |
| Numbers.PrintedWidth | lib/printfmt.c:37-55 | exactly max(width, digits) characters are emitted, for any width |
| Numbers.Strtol | lib/string.c:239-284 | the value, reduced to a long at each digit, is the reduced value of the longest number at the head; end is behind it |
| Numbers.RoundTrip | lib/string.c:239-284 | strtol with the base given reads back all that printnum printed, for numbers below 2^31, bases 2 to 16 and blank or zero padding |
| Literals.ReadsLiteral | lib/string.c:239-284 | blanks, a sign, a prefix that goes with the base, and digits are read as the number they write, up to the first character that is no digit |
| Literals.DigitOfIs | lib/string.c:264-270 | digits and letters, small or capital, count from 0 to 35 |
| Literals.SmallLetters | lib/printfmt.c:51-54 | printnum writes digits and small letters |

## Left out

- Boot loader, ELF loading, assembly entries, descriptor tables, interrupt controllers, console and file system: devices and instruction plumbing.
- The system call dispatcher, but for the result it leaves in eax, and the register-passing stubs.
- TLB shootdown between CPUs: the code does none, so agreement is proved for the one CPU of Pmap.Memory.
- Accessed and dirty bits: the processor sets them in entries; entries here keep the flags that the kernel stored.
- Fairness of the spin lock, and how soon a runnable environment runs when CPUs keep losing their current one.
- vprintfmt's scan of its format, printnum's use for signed numbers, and strtol's behaviour on text that printnum does not print, beyond what Numbers.Strtol states.
- The free list of environments is a sequence, not a chain of env_link pointers.
- Other system calls of user programs between copy-on-write environments: a program that maps a private writable page twice by sys_page_map or IPC is outside CowFork.Allowed.
- CowFork.Environments.SysPageMap: is told whether there is memory, because page tables are not part of that model.
- CowFork.Environments.SysPageAlloc: the same, and the page it finds is given to it.
- Pmap.Memory.BootMapRegion: asks for a region above UTOP that leaves the self-map alone, as all its callers pass.
- Pmap.Memory.PageInsert: asks that the page has fewer than 65535 references; what the kernel does with a count that has wrapped (Refcount.IncrementedIff) is not followed further.
- Syscalls.System.EnvAlloc: asks that the CPU's current environment is not free.
- PageFrames.Env.PgfaultUpcallReturn: starts where the C handler has returned; the handler itself is any computation that PageFrames.Allowed admits.
- Ipc.IpcSend: that a receiver comes to wait is not claimed; it runs against the machines in which its calls are made, whatever other environments do in between.
- Syscalls.System.SysIpcTrySend: claims nothing of env_ipc_perm when no page moves, as the source never clears it.
- sfork, which the library does not implement.
- set_pgfault_handler: the parent's own exception stack and upcall; and env_pgfault_upcall in Machine, which env_alloc resets.
- The calls of boot_map_region in mem_init, one by one.
