# Xvisor core, modelled and proved in Dafny

Xvisor is a hypervisor written in C. This project models the parts of its core whose correctness is
hardest to see from the code, and proves what those parts keep over every input and every run. Each
module follows the form of the code it models: objects whose fields are updated in place are classes with
`modifies` clauses, loops are loops, bitmaps and section tables are arrays; what the operations compute is
given by functions and predicates on values, and the main theorems are about those.

`dafny verify dfyconfig.toml` checks the whole project.

## What is modelled

**Resource tree** (`ResourceForest`, `ResourceLinks`, `ResourceTree`, `ResourceAlloc`, `ResourceReserve`,
`ResourceBusy`, `ResourceRegion`). Resources are heap objects linked by parent, sibling and child pointers.
`Abs` reads the tree off the parent pointers as a `Forest`, `LinksOf` reads the child and sibling pointers,
and `Valid` says that the tree is well formed (children inside their parent, siblings disjoint, no cycle) and
that the pointers list the children of every resource in rising order. Every operation keeps `Valid` and says
what it does to the forest. Over every run of request, insert, release, resize, region request and region
release, granted BUSY regions never overlap, exactly as long as nobody asks for a region inside a granted one.
The methods state which steps of such a run they are.

**VCPU scheduler** (`SchedulerState`, `SchedulerSafety`, `SchedulerRuns`, `Scheduler`). A state machine over any
number of VCPUs and host CPUs whose steps are the sections that run under a scheduling lock. The order of a
ready queue belongs to the scheduling algorithm, so any queued VCPU may be taken first. The invariant is kept
by a step exactly if the step does not take a VCPU that is still current away from under its host CPU; two
runs show what happens otherwise.

**Memory stack**: the frame allocator (`FrameBits`, `HostRamSpec`, `HostRamRuns`, `HostRam`), the index of
physical ranges that are mapped into the hypervisor (`IntervalTree`, `MemMap`, `MemMapRuns`), guest regions, their
translation and chunked access (`GuestMapping`, `GuestAspace`, `GuestMemory`), the host RAM behind a guest
region (`RegionRam`), and the two together (`GuestRam`): regions that get their RAM from the frame allocator
give guest addresses host bytes of their own, over every run of adding and deleting regions, so what a guest is
written it reads back.

**IOMMU** (`Bits`, `Iommu`): tiling of a range into supported page sizes, rollback, and unmapping.

**Mutexes** (`MutexSpec`, `MutexRuns`, `Mutexes`): recursive sleeping mutexes, the list of resources each VCPU
holds, and the flush of that list when a VCPU is destroyed, as an interleaving of lock-held sections.

**Two transformations**: the layout and loading of module sections (`ModuleLayout`) and the table-driven CRC-32 (`Crc32`).

## Where the code does not do what one would expect

Each of these is stated with its exact condition.

- Adjusting a resource to size 0 is let through and breaks the tree (`AdjustedIsValid`, `AdjustToNothing`).
- A region requested from inside a granted region overlaps it (`GrantKeepsApart`, `NestedGrantOverlaps`).
- Releasing a region that has children leaves them pointing to freed memory (`ReleaseRegion`, `DropNeedsChildless`,
  `ReleaseLeavesOrphan`).
- A VCPU that is READY but still current is paused, halted or reset without leaving the queue
  (`ChangeKeepsInv`, `HaltedButQueued`, `HaltedRunsAgain`); the host CPU of a VCPU that is still current can be
  changed (`SetHcpuKeepsInv`, `QueuedInTheWrongPlace`).
- The frame search runs past the end of a bank (`FirstFitInside`, `TakeKeepsCount`, `OverrunsTheBank`). It cannot if
  the frames of the bank fill whole words of its bitmap (`FreshBankIs`, `PaddedRunsAreSafe`).
- A free that does not match an allocation spoils the free count (`FreeKeepsCount`, `FreeSpoilsTheCount`).
- A reservation counts frames from the size alone, so a range that begins inside a frame leaves its last frame free
  (`CountedFramesAreTouched`, `ReservesOverlap`), and two guest regions may share host bytes (`UnalignedGuestShares`).
- The physical-to-virtual lookup is right only at the base of an entry (`Pa2Va`); an entry accepts a range at a
  different distance from its start (`AddedServes`), and deleting such a range goes wrong (`Del`, `LastCountsExactly`)
  or stops the machine (`Fatal`, `FatalOutOfStep`).
- The size returned for an address behind an alias can reach past the end of the alias (`AliasWindow`, `AliasTooShort`).
- Guest reads and writes stop at an alias instead of going through it (`Read`, `Write` of `GuestMemory.Guest`).
- Slots smaller than the alignment of an allocated region give back fewer frames than they took (`ConservedExactly`,
  `AddThenDelete`, `SmallSlotsLeak`), also when adding the region fails half-way (`AddRegion`).

## Model

| member | source | states |
|---|---|---|
| ResourceForest.OverlapMeansAncestry | core/vmm_resource.c:113-140 | in a well-formed tree, resources whose ranges meet are ancestor and descendant (or the same) |
| ResourceForest.NoPartialOverlapInTree | core/vmm_resource.c:604-652 | two resources of one tree never overlap partly |
| ResourceForest.RespanKeepsWellFormed | core/vmm_resource.c:702-738 | changing a range keeps the tree well formed if and only if the new range stays inside the parent, clear of the siblings and around the children |
| ResourceForest.HomeIsUnique | core/vmm_resource.c:609-623 | the deepest resource that encloses a range is unique |
| ResourceForest.HomeDecides | core/vmm_resource.c:609-633 | the children of that resource alone decide whether anything in the whole tree overlaps the range partly |
| ResourceForest.AdoptKeepsWellFormed | core/vmm_resource.c:635-650 | putting a resource between a parent and the children it covers keeps the tree well formed |
| ResourceForest.AdoptAncestry | core/vmm_resource.c:635-650 | insertion keeps every ancestor relation between old resources; below the new one are exactly the subtrees it covers |
| ResourceForest.ConflictInsideEveryFit | core/vmm_resource.c:681-698 | growing over a conflict loses no candidate range |
| ResourceForest.RootFits | core/vmm_resource.c:674-700 | a fitting range always exists for a range inside the root |
| ResourceLinks.ThreadInKeepsThreaded | core/vmm_resource.c:126-133 | linking a resource into the gap of a sorted child list keeps all child and sibling pointers right |
| ResourceLinks.UnthreadKeepsThreaded | core/vmm_resource.c:146-156 | unlinking keeps all child and sibling pointers right |
| ResourceLinks.SpliceKeepsThreaded | core/vmm_resource.c:635-650 | cutting a run of siblings out and hanging it below the new resource keeps all pointers right |
| ResourceTree.RequestResource | core/vmm_resource.c:113-140 | links the resource among the children of root, a request step of a run, or changes nothing and returns root (exactly if it does not fit) or the lowest overlapping child |
| ResourceTree.ReleaseResource | core/vmm_resource.c:142-159 | takes the resource out of its parent's list and keeps the tree valid; a release step of a run |
| ResourceTree.ScanChildren | core/vmm_resource.c:126-139 | the walk stops at the lowest overlapping child or at the gap for the range |
| ResourceTree.WalkOverlaps | core/vmm_resource.c:625-633 | the walk finds a resource that is not covered, or the exact run of children the new resource covers |
| ResourceTree.Descend | core/vmm_resource.c:609-623 | the descent ends at the deepest resource that encloses the range |
| ResourceTree.SpliceRun | core/vmm_resource.c:635-650 | the pointer edits put the new resource in the place of the run and the run below it |
| ResourceTree.InsertResource | core/vmm_resource.c:604-652 | succeeds if and only if the range fits root and overlaps nothing partly; then it sits at the deepest enclosing level and adopts exactly what it covers, an insert step of a run; otherwise nothing changes and a partly overlapping resource (or root) is returned |
| ResourceTree.InsertResourceExpandToFit | core/vmm_resource.c:674-700 | always ends for a range inside root; the final range is the least one around the request without partial overlap, and it is inserted: a resize and an insert step of a run |
| ResourceAlloc.FindResource | core/vmm_resource.c:433-488 | returns the lowest aligned slot inside root and min..max that avoids all children but `old`, and fails only if there is none |
| ResourceAlloc.ReallocateResource | core/vmm_resource.c:511-548 | gives `old` the lowest slot, in place or by moving it, if and only if it has no children or the slot covers its present range and has an address set; the BUG_ON is unreachable; a resize step of a run |
| ResourceAlloc.MoveResource | core/vmm_resource.c:539-544 | taking a resource out, re-ranging it to a free slot and requesting it again cannot conflict |
| ResourceAlloc.AllocateResource | core/vmm_resource.c:550-583 | allocates or reallocates the lowest slot, and fails only if there is none; a resize and a request step of a run |
| ResourceAlloc.AdjustResource | core/vmm_resource.c:702-738 | changes the range exactly if it keeps its place and covers its children; the tree stays valid if and only if the size is positive or there is no parent; for a positive size it is a resize step of a run |
| ResourceAlloc.AdjustedIsValid | core/vmm_resource.c:702-738 | the exact condition under which an adjusted tree is well formed |
| ResourceAlloc.AdjustableExactly | core/vmm_resource.c:702-738 | a range that is not empty is accepted if and only if the tree stays well formed and the siblings stay on their sides |
| ResourceAlloc.AdjustToNothing | core/vmm_resource.c:702-738 | a tree in which adjusting to size 0 succeeds and breaks the tree |
| ResourceReserve.ReserveRegionWithSplit | core/vmm_resource.c:767-824 | ends with every address of the range in a child of root; each new BUSY child is a maximal gap, each maximal gap is a new child, and nothing else has changed |
| ResourceReserve.ReserveRegion | core/vmm_resource.c:826-853 | the same for the part of the range inside root; a range outside it changes nothing |
| ResourceReserve.Split | core/vmm_resource.c:804-821 | what is left of a range after a conflict is cut out lies before it, behind it, or both |
| ResourceReserve.Place | core/vmm_resource.c:787-794 | a free piece is a maximal gap, and once it is in, the pieces left are exactly what was still to do |
| ResourceReserve.FinishedFillsGaps | core/vmm_resource.c:767-824 | if the whole range is taken and only maximal gaps were filled, every maximal gap was |
| ResourceReserve.ReservedIsPath | core/vmm_resource.c:767-824 | a reservation is a sequence of steps of a run, two for each gap: a new BUSY resource and a request for it |
| ResourceBusy.OpenThrough | core/vmm_resource.c:873-883 | whether a region can be granted below a resource depends on the overlapping child alone |
| ResourceBusy.GrantMeetsBusy | core/vmm_resource.c:873-897 | a granted range meets a BUSY resource of the tree if and only if the request began at or below one |
| ResourceBusy.GrantKeepsApart | core/vmm_resource.c:855-897 | a grant keeps the granted regions apart if and only if none of them lies at or around the starting resource |
| ResourceBusy.StepKeepsInv | core/vmm_resource.c:113-159 | every operation keeps the tree well formed and the granted regions apart, a grant if and only if it is asked for outside the granted regions |
| ResourceBusy.RunKeepsInv | core/vmm_resource.c:855-955 | so does every run of operations |
| ResourceBusy.PathIsRun | core/vmm_resource.c:113-853 | a sequence of operations that grant and release nothing is a run, whatever has been granted before |
| ResourceBusy.GrantedRegionsAreDisjoint | core/vmm_resource.c:855-955 | at every point of every run two granted regions of one tree have no address in common |
| ResourceBusy.NestedGrantOverlaps | core/vmm_resource.c:855-897 | a request that begins at a granted region is granted inside it |
| ResourceBusy.DropNeedsChildless | core/vmm_resource.c:936-945 | removing a region keeps the tree well formed if and only if it has no children |
| ResourceBusy.ResizeIsStep | core/vmm_resource.c:702-738 | a change of range after which the tree is well formed is a step of a run |
| ResourceRegion.RequestRegion | core/vmm_resource.c:855-897 | grants the range if and only if everything below parent that meets it encloses it and is not BUSY; the new BUSY resource hangs where it is free; a grant step of a run |
| ResourceRegion.ReleaseRegion | core/vmm_resource.c:914-955 | finds the BUSY resource of exactly this range through non-BUSY ones, or there is none; the tree stays valid, and this is a step of a run, if and only if it has no children |
| ResourceRegion.ReleaseLeavesOrphan | core/vmm_resource.c:936-945 | a tree in which a region that holds another one is released, and the inner one is left without its parent |
| ResourceRegion.GrantThenRelease | core/vmm_resource.c:855-955 | a release of a granted range finds exactly the granted resource, and restores the forest |
| SchedulerSafety.ChangeKeepsInv | core/vmm_scheduler.c:367-509 | a state change keeps the invariant if and only if it does not take a READY VCPU out of its state while it is still current (or destroy it) |
| SchedulerSafety.SetHcpuKeepsInv | core/vmm_scheduler.c:607-655 | setting the host CPU keeps the invariant if and only if the VCPU is not changed while still current |
| SchedulerSafety.MigrateKeepsInv | core/vmm_scheduler.c:574-605 | a migration keeps the invariant if and only if it does not hand over a VCPU that is still current |
| SchedulerSafety.TakenKeepsInv | core/vmm_scheduler.c:197-236 | starting the VCPU that was dequeued keeps the invariant |
| SchedulerSafety.OnePick | core/vmm_scheduler.c:197-220 | with exact queues the retry loop never has to retry |
| SchedulerSafety.StepKeepsInv | core/vmm_scheduler.c:138-655 | a step keeps the invariant if and only if it is safe |
| SchedulerRuns.QueuedOnceRunningAlone | core/vmm_scheduler.c:170-237 | in every safe run a VCPU is in exactly its own host CPU's queue, once, if and only if READY; each host CPU runs at most one VCPU, its current one |
| SchedulerRuns.HaltedNeverRuns | core/vmm_scheduler.c:454-475 | a HALTED VCPU stays HALTED until it is reset or destroyed |
| SchedulerRuns.ResumeCancelsNextPause | core/vmm_scheduler.c:434-464 | a resume seen while RUNNING cancels the next pause before rescheduling, and only that one |
| SchedulerRuns.SwitchClearsResume | core/vmm_scheduler.c:154-163 | the VCPU that a switch starts runs, is current and has no resume pending |
| SchedulerRuns.PauseCancelledExactly | core/vmm_scheduler.c:434-464 | a resume seen while RUNNING cancels the next pause if and only if no switch started the VCPU in between |
| SchedulerRuns.PauseTakesEffect | core/vmm_scheduler.c:223-227 | in every run a pause that reaches a runnable VCPU after a switch started it, with no resume in between, leaves it PAUSED |
| SchedulerRuns.JudgedBy | core/vmm_scheduler.c:389-476 | the table of the requests that are obeyed, harmless or an error |
| SchedulerRuns.RequestsAre | core/vmm_scheduler.c:389-509 | what a request does to the state, the pending resume and the reset count; host CPU, affinity and all other VCPUs stay |
| SchedulerRuns.SetOrAsked | core/vmm_scheduler.c:634-652 | the host CPU of a VCPU that cannot run is set at once; for one that can, its host CPU is asked |
| SchedulerRuns.ServedMoves | core/vmm_scheduler.c:574-605 | serving a request moves a VCPU that is READY on the host CPU asked from queue to queue, and does nothing otherwise |
| SchedulerRuns.ReachesNewHost | core/vmm_scheduler.c:574-655 | in every run a request to move waits until it is served, and a VCPU that is READY then is in the queue of the new host CPU |
| SchedulerRuns.NeverStarved | core/vmm_scheduler.c:197-201 | with idle VCPUs that only yield, no switch finds its queue empty: the panic is unreachable |
| SchedulerRuns.BootIsSafe | core/vmm_scheduler.c:929-1003 | the state after start-up satisfies the invariant and has its idle VCPUs queued |
| SchedulerRuns.TimeIsConserved | core/vmm_scheduler.c:478-509 | since leaving RESET, ready, running, paused and halted time plus deducted interrupt time equal the time passed, across switches, state changes and statistics |
| SchedulerRuns.TimeByState | core/vmm_scheduler.c:478-509 | in every safe run each counter of a VCPU holds the time it was in that state since it left RESET, the running time less interrupt time |
| SchedulerRuns.TimeStepByState | core/vmm_manager.c:231-255 | each step books the time that passes on the state the VCPU is in and on no other |
| SchedulerRuns.TimeStep | core/vmm_scheduler.c:183-230 | each step books exactly the time that passes, less the interrupt time it deducts |
| SchedulerRuns.HaltedButQueued | core/vmm_scheduler.c:458-471 | a VCPU that is READY but current is halted in the queue, and the next switch may start it |
| SchedulerRuns.HaltedRunsAgain | core/vmm_scheduler.c:458-471 | a run from a sound state in which a HALTED VCPU runs without a reset |
| SchedulerRuns.QueuedInTheWrongPlace | core/vmm_scheduler.c:634-642 | a run in which an early change of the host CPU leaves a VCPU in another CPU's queue |
| Scheduler.Scheduler.StateChange | core/vmm_scheduler.c:367-509 | the new state, queue, flags and counters, the return code, and when a switch is asked for |
| Scheduler.Scheduler.Next2 | core/vmm_scheduler.c:170-237 | puts a running VCPU back and starts the first dequeued one that is READY or current; fails only if there is none; what is started runs with no resume pending |
| Scheduler.Scheduler.Claim | core/vmm_scheduler.c:197-236 | the retry loop passes over exactly the dequeued VCPUs that stopped being READY; what is started runs with no resume pending |
| Scheduler.Scheduler.Next1 | core/vmm_scheduler.c:138-167 | starts a VCPU on a host CPU that has none; what is started runs with no resume pending |
| Scheduler.Scheduler.Switch | core/vmm_scheduler.c:239-281 | a switch is a step of the machine unless preemption is disabled; the VCPU it starts runs, is current and has no resume pending |
| Scheduler.Scheduler.SetHcpu | core/vmm_scheduler.c:607-655 | sets the host CPU, or asks the old one to hand the VCPU over, or refuses by affinity |
| Scheduler.Scheduler.MigrateVcpu | core/vmm_scheduler.c:574-605 | moves a READY VCPU from queue to queue, or does nothing |
| Scheduler.Scheduler.VcpuStats | core/vmm_manager.c:193-281 | brings the counter of the present state up to date |
| Iommu.PageSize | core/vmm_iommu.c:430-460 | the largest supported page size that fits the size and divides the addresses; the BUG_ON fires if and only if there is none |
| Iommu.AlwaysFits | core/vmm_iommu.c:452-453 | for aligned addresses and size there always is one, so the BUG_ON cannot fire |
| Iommu.LargestDividesBoth | core/vmm_iommu.c:430-460 | the page divides both addresses, and every larger supported page fails to fit or to divide one of them |
| Iommu.TilingIsUnique | core/vmm_iommu.c:491-508 | there is one greedy tiling: of two, one begins with the other |
| Iommu.Domain.Map | core/vmm_iommu.c:462-515 | succeeds if and only if the driver accepts every page of the greedy tiling, and then exactly the range is translated, in pages each the largest possible; otherwise it stops at the first page refused, and the rollback leaves the old table less what was touched, the old table if and only if nothing of it was mapped before |
| Iommu.Domain.MapPages | core/vmm_iommu.c:491-508 | the loop always makes progress, tiles the range exactly, and ends early if and only if the driver refuses a page, the first such |
| Iommu.Domain.Unmap | core/vmm_iommu.c:517-563 | unmaps exactly up to the requested size or the first hole |
| Iommu.MapThenUnmapIsIdentity | core/vmm_iommu.c:462-563 | unmapping what was mapped restores the table if and only if nothing of it was mapped before |
| Bits.OrDivides | core/vmm_iommu.c:482-495 | the merged address is divisible by a power of two if and only if both addresses are |
| Bits.AndMask | core/vmm_iommu.c:446-450 | masking with `2^k - 1` is the remainder |
| Bits.FfsDivides | core/vmm_iommu.c:439-444 | the powers of two that divide a number are those up to its lowest set bit |
| Bits.FlsBounds | core/vmm_iommu.c:437 | the powers of two that a number reaches are those up to its highest set bit |
| FrameBits.SetRunClear | core/vmm_host_ram.c:110-111 | how marking a run changes the number of clear bits |
| HostRamSpec.CandidatesAreAligned | core/vmm_host_ram.c:88-92 | every frame the search looks at starts at an aligned address |
| HostRamSpec.AlignedAreCandidates | core/vmm_host_ram.c:88-92 | every frame that starts at an aligned address is one the search looks at |
| HostRamSpec.CandidatesAreExact | core/vmm_host_ram.c:88-92 | the frames the search looks at are exactly the aligned ones |
| HostRamSpec.RoundUpIs | core/vmm_host_ram.c:75-76 | a size is rounded up to the least multiple of the alignment that is not smaller |
| HostRamSpec.FirstFitInside | core/vmm_host_ram.c:93-103 | the run that is found lies inside the bank if and only if some aligned free run does |
| HostRamSpec.RoomIsOffered | core/vmm_host_ram.c:83-86 | the free count never hides a bank that has room |
| HostRamSpec.OfferedExactly | core/vmm_host_ram.c:78-116 | with right counts and padding a bank is taken from if and only if an aligned free run lies inside it |
| HostRamSpec.TakeKeepsCount | core/vmm_host_ram.c:109-111 | taking a run keeps the free count right if and only if the run ends inside the bank |
| HostRamSpec.FreeKeepsCount | core/vmm_host_ram.c:254-284 | freeing keeps the free count right if and only if every frame was in use |
| HostRamSpec.TakeThenFree | core/vmm_host_ram.c:57-284 | taking and freeing the same run restores the bank |
| HostRamSpec.OverrunsTheBank | core/vmm_host_ram.c:93-103 | a bank of four frames, with one word of bitmap, in which the search is granted a frame that does not exist |
| HostRamSpec.FreshBankIs | core/vmm_host_ram.c:454-470 | a new bank has the right free count, and its bitmap has no bits past its frames if and only if they fill whole words |
| HostRamSpec.FreeSpoilsTheCount | core/vmm_host_ram.c:254-284 | in a new bank of any size, freeing a frame makes the count exceed the bank |
| HostRamSpec.CountedFramesAreTouched | core/vmm_host_ram.c:217-218 | the frames counted for a range are all it touches if and only if the offset into the first frame and the size together fit the count |
| HostRamSpec.ReservesOverlap | core/vmm_host_ram.c:202-252 | two ranges with bytes in common can both be reserved |
| HostRamRuns.StepKeepsInv | core/vmm_host_ram.c:57-284 | allocation, reservation and matching free keep live runs disjoint, aligned and inside a bank, and the counts right, if and only if an allocation comes from a bank that has room inside it |
| HostRamRuns.FreshBanksAreSound | core/vmm_host_ram.c:454-470 | new banks satisfy the invariant, and have no bits past their frames if and only if the frames fill whole words |
| HostRamRuns.PaddedRunsAreSafe | core/vmm_host_ram.c:57-284 | where no bits past the frames are clear at the start, every step of every run is safe |
| HostRamRuns.TrimKeepsInv | core/vmm_host_ram.c:254-284 | giving back the first frames of a run keeps the invariant; the rest stays taken and nobody holds it |
| HostRamRuns.LiveRunsAreSound | core/vmm_host_ram.c:57-284 | so at every point of a safe run; the first frame of each live run is aligned, the counts are the numbers of clear bits, and a frame is marked if and only if a live run holds it |
| HostRamRuns.NothingIsLost | core/vmm_host_ram.c:254-284 | when everything is given back in a safe run every frame is free |
| HostRam.RamBank.FindRun | core/vmm_host_ram.c:88-107 | the lowest aligned free run that the colour policy accepts, or none exists at any aligned frame |
| HostRam.RamBank.CountFree | core/vmm_host_ram.c:94-102 | counts clear bits up to the first set one |
| HostRam.HostRam.AllocAccepted | core/vmm_host_ram.c:57-122 | takes the lowest aligned free run of the first bank that has one and enough free frames; fails only if none does; the size returned is the least multiple of the alignment that suffices, and the address is aligned and accepted; an allocation step of a run |
| HostRam.HostRam.Alloc | core/vmm_host_ram.c:195-200 | the same without colours, over all aligned frames |
| HostRam.HostRam.ColorAlloc | core/vmm_host_ram.c:184-193 | one block of the colour policy, the lowest aligned free one that the policy says is of the colour |
| HostRam.HostRam.Reserve | core/vmm_host_ram.c:202-252 | takes the frames counted from the floored address and the size if they are all free, otherwise changes nothing; a reservation step of a run; they are all the frames the range touches if and only if it does not begin too far into its first frame |
| HostRam.HostRam.Free | core/vmm_host_ram.c:254-284 | clears the frames counted for the range in the first bank that holds it; for a live run a free step of a run |
| IntervalTree.Find | core/vmm_host_aspace.c:78-101 | the descent finds the only node that holds the address, if any: it agrees with a scan of all nodes |
| IntervalTree.FindMeeting | core/vmm_guest_aspace.c:617-659 | the descent finds a node that meets the interval, if any |
| IntervalTree.InsertIsOrdered | core/vmm_guest_aspace.c:1080-1097 | insertion succeeds if and only if nothing meets the new node, and keeps the order |
| IntervalTree.EraseIsOrdered | core/vmm_host_aspace.c:197 | removal takes out exactly the node and keeps the order |
| IntervalTree.RotationsKeepOrder | core/vmm_guest_aspace.c:1096-1097 | rotations change neither nodes nor order |
| MemMap.Index.Add | core/vmm_host_aspace.c:103-160 | one reference more on the entry that holds the address, or a new disjoint entry; refused, out of entries or fatal in exactly the stated cases (`Refused`); an addition step of a run |
| MemMap.AddedMaps | core/vmm_host_aspace.c:103-160 | adding changes no translation that was there |
| MemMap.AddedServes | core/vmm_host_aspace.c:113-124 | the requested translation holds afterwards if and only if it is in step with the entry |
| MemMap.InsideExactly | core/vmm_host_aspace.c:117-127 | an entry takes a range if and only if it holds every physical and every virtual address of it; in step, if and only if it holds the physical ones |
| MemMap.AddThenDel | core/vmm_host_aspace.c:103-228 | adding a free range and deleting it succeeds and restores the index |
| MemMap.ShareAndReturn | core/vmm_host_aspace.c:103-228 | a free range that is added n times is deleted n times: all but the last deletion are busy, and then the index is as before |
| MemMap.Index.Del | core/vmm_host_aspace.c:162-228 | one reference less; with the last one exactly the range is gone and all else is translated as before, if and only if the range is in step; fatal if and only if the residue behind the range begins in the one before it, or another entry is in its way, or it needs an entry and there is none (`Fatal`), which in step means that the table is full and both sides remain; a deletion step of a run unless it is fatal or takes the last reference out of step |
| MemMap.RefusedBehind | core/vmm_host_aspace.c:219-225 | what is left before the range is in the way of what is left behind it if and only if the latter begins in it |
| MemMap.FatalInStep | core/vmm_host_aspace.c:212-225 | in step a last deletion is fatal if and only if both sides remain and the table is full |
| MemMap.FatalOutOfStep | core/vmm_host_aspace.c:219-225 | an entry and a range out of step with it whose deletion is fatal, however much room the table has |
| MemMap.ExactlyGone | core/vmm_host_aspace.c:199-226 | the residues keep the physical-to-virtual relation outside the range |
| MemMap.NotExactlyGone | core/vmm_host_aspace.c:199-226 | out of step they do not |
| MemMapRuns.RefsAreNet | core/vmm_host_aspace.c:103-228 | in every run the reference count of an entry is the additions less the deletions that landed in it, in step or not, and entries stay disjoint |
| MemMapRuns.LastCountsExactly | core/vmm_host_aspace.c:192-226 | the deletion of a last reference leaves at every address the count that the history says if and only if it is in step with the entry |
| MemMap.Index.Pa2Va | core/vmm_host_aspace.c:230-258 | the computed address and size are right if and only if the address is the base of its entry |
| GuestMapping.SlotsTile | core/vmm_guest_aspace.c:188-212 | the slots tile the region exactly |
| GuestMapping.SlotOfIsRight | core/vmm_guest_aspace.c:214-232 | an address lies in the slot that the shift names, and in no other |
| GuestMapping.SlotIsContiguous | core/vmm_guest_aspace.c:234-266 | the next available addresses translate to the host addresses that follow |
| GuestMapping.HostOfIs | core/vmm_guest_aspace.c:188-266 | in slot i, which begins i times 2^map_order behind the start, an address is as far from the host address of the slot as from its start, and available up to the end of the slot or of the region |
| GuestMapping.FindMapping | core/vmm_guest_aspace.c:234-266 | host address and available size of a guest address, and nothing outside the region |
| GuestAspace.Aspace.FindRegion | core/vmm_guest_aspace.c:95-186 | the only region that holds the address and has the flags, following acyclic aliases to their end; an address of an alias is found in the region that holds the address as far behind `aphys` |
| GuestAspace.Aspace.IsOverlapping | core/vmm_guest_aspace.c:617-659 | finds an overlapping region if and only if there is one |
| GuestAspace.Aspace.InsertRegion | core/vmm_guest_aspace.c:1079-1101 | inserts if and only if nothing overlaps, so regions stay disjoint |
| GuestAspace.Aspace.EraseRegion | core/vmm_guest_aspace.c:1156-1168 | removes exactly the region |
| GuestAspace.Aspace.PhysicalMap | core/vmm_guest_aspace.c:398-446 | fails if and only if the aliases lead nowhere; memory is served at its own host address and an alias like the address as far behind `aphys`; the size is the one asked for or what is left of the slot, and every one of these addresses that stays inside the aliases passed translates to `h` plus its offset |
| GuestAspace.AliasServes | core/vmm_guest_aspace.c:418-425 | an address of an alias is served if and only if the address as far behind `aphys` is, and with the same host address |
| GuestAspace.LeadsOnce | core/vmm_guest_aspace.c:398-446 | there is one way through the aliases, and so one host address |
| GuestAspace.AliasWindow | core/vmm_guest_aspace.c:418-425 | an address further on takes the same way if and only if it stays inside every alias passed |
| GuestAspace.AliasTooShort | core/vmm_guest_aspace.c:418-432 | an alias, not at address 0, for which the returned size reaches past its end |
| GuestMemory.HostMemory.Read | core/vmm_host_aspace.c:481-532 | the page loop reads the bytes of the range |
| GuestMemory.HostMemory.Write | core/vmm_host_aspace.c:534-585 | the page loop writes exactly the bytes of the range |
| GuestMemory.ChunkWrites | core/vmm_guest_aspace.c:369-393 | writing a chunk of a slot equals writing its bytes one at a time through the translation |
| GuestMemory.Guest.Read | core/vmm_guest_aspace.c:318-356 | reads byte by byte through the translation, up to the first address that is no real memory or is an alias |
| GuestMemory.Guest.Write | core/vmm_guest_aspace.c:358-396 | refines byte-by-byte writing, up to the same point |
| GuestMemory.WriteThenRead | core/vmm_guest_aspace.c:318-396 | bytes written are read back and no other guest address changes |
| GuestMemory.OwnFramesAreInjective | core/vmm_guest_aspace.c:1002-1053 | slots with frames of their own give different guest addresses different host addresses |
| GuestRam.BackedIsOwn | core/vmm_guest_aspace.c:982-1053 | slots that hold different live runs, each reaching to the end of its slot, share no host byte |
| GuestRam.AcquireRegion | core/vmm_guest_aspace.c:982-1053 | acquires the RAM of a region if and only if its slots can be served one after the other; otherwise the banks are as before if and only if the slots are not smaller than the alignment or not even the first can be served |
| GuestRam.AddRegion | core/vmm_guest_aspace.c:679-1108 | adds a region of real memory if and only if nothing overlaps it and its slots can be served one after the other; the slots of the guest keep live runs of their own either way, aliases stay acyclic, and a failed addition changes no region, and no bank in exactly the stated cases |
| GuestRam.DeleteRegion | core/vmm_guest_aspace.c:1143-1226 | removes the region and releases its slots; the other slots keep their runs, aliases stay acyclic, and all its frames are free if and only if no slot took more than it gives back |
| GuestRam.ChangeKeepsInv | core/vmm_guest_aspace.c:679-1226 | adding, failing to add and deleting a region keep every slot of real memory in possession of a live run of its own |
| GuestRam.ChangeKeepsWhole | core/vmm_guest_aspace.c:679-1226 | the runs reach to the ends of their slots after a call if and only if it does not reserve a slot that begins too far into its first frame |
| GuestRam.EmptyGuest | core/vmm_guest_aspace.c:1515-1532 | a guest without regions satisfies the invariant, whatever else is live |
| GuestRam.RunsStayInjective | core/vmm_guest_aspace.c:679-1226 | at every point of every run of adding and deleting regions different guest addresses lead to different host bytes, as long as no such slot is reserved |
| GuestRam.AddThenDeleteIsIdentity | core/vmm_guest_aspace.c:679-1226 | adding a region and deleting it restores the regions and the runs, and the whole state if and only if the slots are not smaller than the alignment |
| GuestRam.AlignedReservesWhole | core/vmm_guest_aspace.c:593-609 | page-aligned host addresses never begin too far into a frame |
| GuestRam.WriteThenReadBack | core/vmm_guest_aspace.c:318-396 | for a guest whose slots hold runs of their own that reach to their ends, `Write` and then `Read` return the bytes written, up to the first address that is no real memory, and no other guest address changes |
| GuestRam.UnalignedGuestShares | core/vmm_guest_aspace.c:593-609 | a guest with an unaligned reserved region: the allocator accepts both regions and two guest addresses lead to one host byte |
| RegionRam.AcquireAll | core/vmm_guest_aspace.c:982-1053 | acquires every slot if and only if they can be served one after the other; otherwise the ones before the first that cannot be are released, and every bank is as before if and only if these give back what they took |
| RegionRam.AcquireOne | core/vmm_guest_aspace.c:1002-1053 | a slot is acquired if and only if it can be served, with the run that the banks determine |
| RegionRam.ServedExactly | core/vmm_guest_aspace.c:982-1053 | a slot can be served if and only if the frames it asks for are free, or an aligned free run lies inside a bank |
| RegionRam.ChainIsUnique | core/vmm_guest_aspace.c:982-1053 | the banks determine the runs with which the slots are served one after the other |
| RegionRam.StuckDoesNotFit | core/vmm_guest_aspace.c:982-1053 | where a slot cannot be served after those before it, the region cannot be |
| RegionRam.ChainHolds | core/vmm_guest_aspace.c:982-1053 | serving slots one after the other keeps the frame invariant, and each slot then holds a live run of its own |
| RegionRam.ChainAsPromised | core/vmm_guest_aspace.c:982-1053 | every slot served is at the address it asked for, at an aligned one, or at a block of its colour, the colours taking turns |
| RegionRam.ReleaseSlots | core/vmm_guest_aspace.c:1196-1213 | releasing slots leaves live what was live besides them and what they took beyond their size |
| RegionRam.ReleaseAll | core/vmm_guest_aspace.c:1116-1128 | releasing the slots in order restores every bank if and only if all of them give back what they took |
| RegionRam.AddThenDelete | core/vmm_guest_aspace.c:1196-1213 | adding the RAM of a mapped region and deleting it restores every bank if and only if map_order is at least align_order (or the region is reserved or coloured), or not even the first slot can be served; the addition succeeds if and only if all slots can be |
| RegionRam.SmallSlotsLeak | core/vmm_guest_aspace.c:908-913 | a region of four pages with align_order 14 and map_order 12: its first slot is served in any bank of four free frames, takes four and gives back one |
| RegionRam.ConservedExactly | core/vmm_guest_aspace.c:897-915 | every slot of a region gives back what it took if map_order is at least align_order (or the region is reserved or coloured), and otherwise the first slot does not |
| RegionRam.RestoredExactly | core/vmm_guest_aspace.c:1116-1128 | the banks are the same as before if and only if the same runs are live |
| RegionRam.RunsShareNoByte | core/vmm_guest_aspace.c:1002-1053 | ranges that stay inside the frames of two different live runs have no byte in common |
| RegionRam.ColoredIsExact | core/vmm_guest_aspace.c:917-922 | the slots of a coloured region are whole blocks and give back what they took |
| RegionRam.LiveDeterminesBank | core/vmm_guest_aspace.c:1116-1128 | with the same live runs the bitmaps and counts are the same |
| MutexSpec.StepKeepsInv | core/vmm_mutex.c:30-178 | every section keeps a mutex locked exactly if owned, and on its owner's list exactly once |
| MutexRuns.CountIsNesting | core/vmm_mutex.c:79-178 | in every interleaving the lock count is what the owner has acquired and not given back |
| MutexRuns.MutualExclusion | core/vmm_mutex.c:110-178 | two VCPUs never have the same mutex acquired at once |
| MutexRuns.EnterExactly | core/vmm_mutex.c:125-173 | a VCPU can take a mutex if and only if no other one holds it |
| MutexRuns.OwnerNeverSleeps | core/vmm_mutex.c:139-178 | in every interleaving a VCPU that has a mutex acquired acquires it again at once, and one that finds it acquired by another sleeps |
| MutexRuns.GivenBackAsOften | core/vmm_mutex.c:79-178 | before another VCPU acquires a mutex, its owner has given it back exactly as often as it had acquired it, unless it was destroyed |
| MutexRuns.ListsAreExact | core/vmm_manager.c:472-527 | a held mutex is once on its owner's list and on no other; a destroyed VCPU owns nothing |
| MutexRuns.FlushAdvances | core/vmm_manager.c:505-527 | while a VCPU is destroyed nobody adds to its list and each step of the flush takes from it |
| MutexRuns.FlushGoesOn | core/vmm_manager.c:505-527 | the flush is never stuck |
| Mutexes.Mutexes.Lock | core/vmm_mutex.c:139-178 | sleeps if and only if the mutex is locked by another VCPU; otherwise, also for its owner, the count rises by one and the VCPU owns it |
| Mutexes.Mutexes.Wake | core/vmm_mutex.c:150-166 | times out, or acquires as `Lock` does if and only if no other VCPU has the mutex locked, or goes back to sleep |
| Mutexes.Mutexes.TryLock | core/vmm_mutex.c:110-137 | succeeds if and only if no other VCPU has the mutex locked, raising the count by one, and never sleeps |
| Mutexes.Mutexes.Unlock | core/vmm_mutex.c:79-108 | gives back one acquisition of the owner; refused for anybody else |
| Mutexes.Mutexes.Cleanup | core/vmm_mutex.c:30-49 | releases a mutex that its destroyed owner still holds |
| Mutexes.Mutexes.Flush | core/vmm_manager.c:505-527 | releases exactly the mutexes the VCPU owns |
| ModuleLayout.LayoutSections | core/vmm_modules.c:337-378 | every loaded section gets exactly one aligned offset, pairwise disjoint and inside core_size, code below core_text_size, read-only data below core_ro_size |
| ModuleLayout.GetOffset | core/vmm_modules.c:321-331 | the section starts at or behind the present size, within one alignment, and the new size ends with it |
| ModuleLayout.PlaceOne | core/vmm_modules.c:355-363 | placing one more section keeps the placed ones apart |
| ModuleLayout.LaidOutIsPlaced | core/vmm_modules.c:337-378 | the sections laid out are placed apart below core_size |
| ModuleLayout.PlaceLast | core/vmm_modules.c:408-411 | marking a section as loaded and moving it behind the image keeps all sections placed apart |
| ModuleLayout.LayoutSymtab | core/vmm_modules.c:400-443 | the symbol and string tables become loaded sections behind the others, and the room for the kept symbols, which is aligned, and for their names meets no section |
| ModuleLayout.MoveModule | core/vmm_modules.c:455-474 | for sections placed apart below the size of the image, every one arrives unharmed and all other bytes are zero |
| ModuleLayout.AllocAndLoad | core/vmm_modules.c:479-505 | from any section headers, every loaded section and both tables are found unharmed in the image, and the room for kept symbols and names is zero |
| Crc32.EntryIsRight | commands/cmd_memory.c:47-91 | each of the 256 table entries is the remainder of its index after eight steps |
| Crc32.ByteThroughTable | commands/cmd_memory.c:217 | one table step equals eight zero-message steps |
| Crc32.EightBits | commands/cmd_memory.c:217 | feeding a byte bit by bit equals mixing it in first |
| Crc32.Crc32Of | commands/cmd_memory.c:196-221 | for every byte sequence the loop computes the bit-at-a-time reflected CRC-32 of section 8 of RFC 1952 |

## Left out

- Integer widths: addresses, sizes and counters are unbounded; wrap-around at the type maximum (for example a first child that ends at the last address) is not modelled.
- Alignments: `align` and the masks are modelled as rounding to multiples, which they are for the powers of two the code requires.
- ResourceTree.RequestResource: the resource to put in has neither parent nor children; linking in one that still has children is not modelled.
- ResourceTree.InsertResource: the same; the warning for a resource that is inserted twice is not modelled.
- ResourceAlloc.FindResource: only the default alignment callback and positive sizes; the weak hook that removes architecture reservations is empty.
- ResourceAlloc.AllocateResource: the same.
- ResourceRegion.RequestRegion: MUXED requests, which wait and retry, are not modelled; allocation of the new resource succeeds.
- ResourceReserve.ReserveRegionWithSplit: allocation of the new resources succeeds.
- Scheduler.Scheduler.StateChange: the architecture and interrupt set-up of a reset succeeds; the switch that follows a state change is a step of its own.
- Scheduler.Scheduler.Switch: dequeuing a VCPU and claiming it is one step; register switching, timers and the release of a wait-queue lock are left out. The order of the ready queue and the priorities are not recorded.
- Changing the affinity of a VCPU, load balancing, and the sampling of idle and interrupt time.
- Iommu.Domain.Map: protection flags are left out; a driver maps a whole page or nothing, and which pages it refuses is a parameter of the call.
- Iommu.Domain.Unmap: a driver unmaps whole smallest pages, at least one if the address is mapped, and never more than the page asked for; the code allows a driver to unmap more.
- HostRam.RamBank.FindRun: bits past the words of a bitmap read as set. In memory they belong to whatever follows.
- HostRamRuns.LiveRunsAreSound: frees match live runs, and every step is safe; `StepKeepsInv` says exactly which allocations are not, `FreeKeepsCount` what a free that matches no run does.
- RegionRam.AddThenDelete: the banks have no clear bits past their frames, which `FreshBankIs` says exactly when; in others an allocation may run past the end. The same holds for `GuestRam`.
- GuestRam.AddRegion: every region of real memory of the guest has RAM from the frame allocator; shared memory and real regions without RAM of their own are left out.
- GuestMemory.WriteThenRead: for guests whose slots share no host byte; `WriteThenReadBack` derives that from the frame allocator.
- MemMap.Index.Add: the array of entries is a capacity and a count; ranges are not empty.
- MemMap.Index.Del: ranges are not empty.
- MemMapRuns.RefsAreNet: a deletion that takes the last reference of an entry is in step with it; `LastCountsExactly` says that the counts are wrong otherwise. Deletions that leave references need not be in step.
- The balancing of red-black trees: a tree is any ordered tree; rotations are shown to keep order and nodes.
- GuestAspace.Aspace.FindRegion: aliases must not form a cycle, because the code does not end then.
- GuestAspace.Aspace.PhysicalMap: of the next `n` addresses, those that leave an alias that was passed are not described; `AliasWindow` says which they are, `AliasTooShort` that there are such.
- GuestAspace.Aspace.InsertRegion: regions are not empty and have all their slots; shared memory, device probing, the device tree and the architecture callbacks of adding and deleting a region are left out.
- GuestMemory.HostMemory.Read: mapping and unmapping the page that is used for access succeeds; caches are not modelled.
- Mutexes.Mutexes.Lock: a sleeping VCPU may wake at any time, which covers every order in which waiters are woken; time-outs are a choice of the environment.
- ModuleLayout.LayoutSections: the small-data flag of the architecture is 0; relocation and symbol resolution are left out.
- ModuleLayout.LayoutSymtab: how many symbols and names are kept is a parameter; the selection of the symbols and the bitmap of their names are left out.
- Crc32.Crc32Of: the mapping of pages around each byte is left out.
- Every other command of the shell, which parses arguments and prints what the core reports.
- core/vmm_devtree.c, core/vmm_devdrv.c, core/vmm_notifier.c, core/vmm_host_irqdomain.c: the device tree, driver binding, notifier chains and interrupt domains, which are lists and maps of registered objects with callbacks.
- core/vmm_clocksource.c, core/vmm_timer.c: the conversion of cycle counters to time and the queue of timer events.
- core/vmm_heap.c, core/vmm_host_vapool.c: the heap, which wraps the buddy allocator of libs, and the pool of virtual pages.
- core/vmm_semaphore.c, core/vmm_completion.c, core/vmm_waitqueue.c: the other sleeping primitives, on the same wait queues as mutexes.
- The architecture code, the device drivers and emulators, the network and block stacks and the scheduling algorithms.
