# Verified models of the Xvisor core

Dafny models of the parts of the Xvisor hypervisor core that keep books: who
owns which page frame, which address goes where, who may run and who sleeps.
Each module follows one source file. Where the source updates state in place
the model has a class with loops, proved against functions on values; the
properties are proved about those functions and over whole runs.

| module | models |
|---|---|
| `Iommu`, `Bits` | choice of page sizes, mapping, unmapping and the unroll of IOMMU domains |
| `HostRam`, `HostRamRuns`, `Frames` | host RAM banks: aligned, colour-aware first-fit allocation, reservation, release |
| `MemHash`, `HostAspace`, `HostAspaceRefs`, `IntervalTree` | the physical-to-virtual hash of host mappings and the page table beside it |
| `PagePool` | sub-allocation of hugepages |
| `GuestRegions`, `GuestMemory` | guest regions, their mappings, lookup, and guest memory reads and writes |
| `GuestRam`, `GuestAspace`, `GuestAdded` | adding and deleting guest regions with the host RAM behind them |
| `Mutex` | sleeping mutexes, wait queues and the resource lists of VCPUs |
| `Cpuhp` | CPU hotplug notifiers |
| `DevtreePath` | device-tree paths: printer, parser, node references |
| `ModuleLayout` | layout of ELF sections of loadable modules and their copy into pages |
| `Arith`, `Common` | powers of two, alignment, return codes |

`dafny verify dfyconfig.toml` checks the whole project.

Some things the code is expected to do hold only under a condition. Each has
the exact condition as an if-and-only-if and a concrete case where it fails:

- The host RAM scan can grant frames behind the end of a bank (`FirstFitStaysInBankIff`, `ScanOverrunsTheBank`).
- Removing from the hash trusts that virtual and physical offsets agree (`DelLosesExactlyIff`, `MismatchedDelKeepsPage`); its one caller, `host_memunmap`, always passes offsets that do (`UnmapOffsetsAgree`).
- `host_memmap` rounds the size without the page offset (`MapCoversIff`, `OffsetIsForgotten`).
- A timeout or a destruction can lose the wake-up of a mutex (`WakeupKeptIff`, `TimeoutLosesWakeup`).
- A failed IOMMU map forgets what was mapped before in the range it had got through (`Domain.Map`, `FailedMapForgets`).
- The page pool passes over clear pages at the start of an entry (`RoomIsPassedOverIff`, `ThreeClearPagesUnused`).
- A hotplug state is entered even when a callback fails (`SetStateKeepsInvIff`, `FailureIsForgotten`).
- A device-tree path can lead into a sibling whose name lacks the last character (`RoundTripIff`, `U1IsShadowed`), and a lookup can keep node references (`BalancedIff`, `AstrayLeaks`).
- The 32-bit sizes of a module layout wrap (`LayoutIsGoodIff`, `TailIsChainedIff`, `HugeSectionWraps`).
- An allocated guest region with mappings below its alignment does not give back all its frames (`AddThenDelRestoresIff`, `SmallMappingsLeak`), nor does its failing addition (`AddIsAllOrNothingIff`, `FailedAddLeaks`).

Environments become parameters: the IOMMU driver's map and unmap callbacks, the
virtual address pool, the hugepage allocator, the heap, the device emulator,
the architecture callbacks, the shared memories, the cache colours and the set
of host pages that can be mapped.

## Model

| member | source | states |
|---|---|---|
| Iommu.PgsizeIsLargestUsable | core/vmm_iommu.c:645-675 | the page size picked is the largest supported one that divides the address bits and fits; `BUG_ON` fires exactly when there is none |
| Iommu.PickAdvances | core/vmm_iommu.c:645-675 | a request aligned to the smallest page never reaches the `BUG_ON`, and stays aligned after each page |
| Iommu.GreedyTiles | core/vmm_iommu.c:709-723 | the pages asked for tile the range exactly, each of a supported size and aligned in both address spaces |
| Iommu.GreedyIsOptimal | core/vmm_iommu.c:709-723 | no tiling by supported, naturally aligned pages uses fewer pages than the greedy one, and no other uses as few |
| Iommu.OutcomeIsGreedyPrefix | core/vmm_iommu.c:709-723 | when the driver fails, what has been mapped is a prefix of the greedy pages |
| Iommu.UnrollAsksWholePages | core/vmm_iommu.c:725-729 | the unroll, which picks sizes from the I/O address alone, always asks for at least the whole page it stands on |
| Iommu.Domain.MapPages | core/vmm_iommu.c:709-723 | the loop maps the greedy pages up to the first driver failure and reports what is left |
| Iommu.Domain.Map | core/vmm_iommu.c:677-730 | refuses without driver or alignment; on success iova+k goes to paddr+k for every k below size; a failure removes exactly what was mapped, and so restores the translation if and only if nothing of that was mapped before |
| Iommu.FailedMapForgets | core/vmm_iommu.c:725-729 | a failed map after which an address mapped before the call is not mapped |
| Iommu.Domain.Unmap | core/vmm_iommu.c:732-778 | removes a prefix of the range, all of it unless an address is met that is not mapped |
| HostRam.FirstPosition | core/vmm_host_ram.c:88-93 | the scan starts at the first aligned frame of a bank |
| HostRam.NextPosition | core/vmm_host_ram.c:88-93 | the stride leads from one aligned frame to the next |
| HostRam.RunIsClear | core/vmm_host_ram.c:94-102 | the bit loop with its early exit decides whether the run is clear |
| HostRam.ScanBank | core/vmm_host_ram.c:88-116 | the strided scan finds the same run as trying every frame in turn |
| HostRam.AllocSpec | core/vmm_host_ram.c:57-122 | what is granted is aligned, at least the size asked for and less than one alignment more |
| HostRam.HostRam.Alloc | core/vmm_host_ram.c:57-122 | the loop over the banks computes the specification, including the requests it refuses |
| HostRam.HostRam.Reserve | core/vmm_host_ram.c:202-254 | reserves in the first bank that holds the range, or says why not and changes nothing |
| HostRam.HostRam.Free | core/vmm_host_ram.c:256-288 | clears the frames of the range in the first bank that holds it |
| HostRamRuns.AllocRefusesOnlyWhenNothingFits | core/vmm_host_ram.c:75-121 | first-fit completeness: a valid request is refused only if no bank holds an aligned, free, colour-matching run of the rounded size |
| HostRamRuns.FirstFitStaysInBankIff | core/vmm_host_ram.c:93-116 | the run found stays inside its bank if and only if some run inside the bank fits |
| HostRamRuns.ScanOverrunsTheBank | core/vmm_host_ram.c:93-116 | a fragmented bank in which the scan grants a page behind the end of the bank |
| HostRamRuns.ColourAllocStaysInBank | core/vmm_host_ram.c:184-193 | colour allocations stay in a bank whose start and size are multiples of the colour size |
| HostRamRuns.ColourGrantInBank | core/vmm_host_ram.c:184-193 | whatever a colour allocation is granted lies in its bank when the banks are multiples of the colour size |
| HostRamRuns.AllocKeepsInv | core/vmm_host_ram.c:57-122 | an allocation keeps counts equal to clear bits and held ranges disjoint |
| HostRamRuns.ReserveKeepsInv | core/vmm_host_ram.c:202-254 | so does a reservation of whole pages |
| HostRamRuns.FreeKeepsInv | core/vmm_host_ram.c:256-288 | so does freeing a held range |
| HostRamRuns.ReserveAnswers | core/vmm_host_ram.c:202-254 | a reservation of whole pages succeeds exactly when the range lies in one bank and meets nothing held; outside every bank it is invalid, otherwise there is no space, and a refusal changes nothing |
| HostRamRuns.FreeAnswers | core/vmm_host_ram.c:256-288 | freeing succeeds exactly when the range lies in one bank, and changes nothing otherwise |
| HostRamRuns.EveryRunKeepsInv | core/vmm_host_ram.c:57-288 | over every run: each bank's free count equals its clear bits; held ranges are disjoint, page aligned and inside one bank |
| HostRamRuns.EveryColourRunKeepsInv | core/vmm_host_ram.c:57-288 | over such banks every run of colour allocations, whole-page reservations and frees keeps the books, with nothing assumed about the scan |
| HostRamRuns.InitialStateIsGood | core/vmm_host_ram.c:459-525 | the banks set up at boot satisfy the invariant |
| HostRamRuns.GivingAllBackFreesEverything | core/vmm_host_ram.c:256-288 | when nothing is held, every frame is free again |
| IntervalTree.LookupIsScan | core/vmm_host_aspace.c:99-122 | the walk down a search tree finds an interval exactly when one contains the address, and then the only one |
| IntervalTree.Find | core/vmm_host_aspace.c:99-122 | the walk as a loop |
| IntervalTree.InsertKeepsBst | core/vmm_host_aspace.c:184-198 | insertion fails exactly on a collision, and otherwise adds one interval to a search tree |
| IntervalTree.EraseKeepsBst | core/vmm_host_aspace.c:207-273 | erasing removes one interval and leaves a search tree |
| MemHash.AddXlat | core/vmm_host_aspace.c:148-205 | adding changes the physical-to-virtual function only on a new range, and then exactly there |
| MemHash.AddSucceeds | core/vmm_host_aspace.c:148-205 | a new range is taken in when a slot is free and nothing collides |
| MemHash.AddAgain | core/vmm_host_aspace.c:158-172 | an addition for an address that a slot holds raises that slot's count by one and changes no other slot, or is refused and changes nothing; exactly when |
| MemHash.AddNew | core/vmm_host_aspace.c:174-202 | an addition for an address that no slot holds gives one free slot the range with one reference and changes no other slot; refused without a free slot, a panic on an overlap |
| MemHash.DelAnswers | core/vmm_host_aspace.c:207-235 | a removal with more references left lowers that slot's count by one and changes nothing else; the last one splits the entry; what is refused, and how |
| MemHash.SplitRefs | core/vmm_host_aspace.c:236-273 | after the last reference no address of the range has one, and every other address has as many as before |
| MemHash.SplitXlat | core/vmm_host_aspace.c:236-273 | dropping the last reference loses exactly the range; it panics exactly when both residues remain and no slot is free |
| MemHash.DelXlat | core/vmm_host_aspace.c:207-273 | a removal loses exactly the range when the last reference goes; every error or busy return changes nothing |
| MemHash.DelLosesExactlyIff | core/vmm_host_aspace.c:207-273 | a removal takes out exactly its range if and only if virtual and physical offsets into the entry agree |
| MemHash.MismatchedDelKeepsPage | core/vmm_host_aspace.c:207-273 | arguments with differing offsets, which `host_memunmap` never passes, for which a successful removal leaves the page in the hash |
| MemHash.SlotsAreConserved | core/vmm_host_aspace.c:62-96 | free slots plus tree entries are always all slots |
| MemHash.HashCtrl.constructor | core/vmm_host_aspace.c:310-334 | an empty hash with all slots free |
| MemHash.HashCtrl.AllocSlot | core/vmm_host_aspace.c:62-76 | takes the first free slot |
| MemHash.HashCtrl.CountFree | core/vmm_host_aspace.c:85-96 | counts the free slots |
| MemHash.HashCtrl.FindVa | core/vmm_host_aspace.c:275-303 | translates an address, with the length left in its entry |
| MemHash.HashCtrl.AddEntry | core/vmm_host_aspace.c:148-205 | the addition in place has the effect that `AddAgain` and `AddNew` state |
| MemHash.HashCtrl.DelEntry | core/vmm_host_aspace.c:207-273 | the removal in place, residues included, has the effect that `DelAnswers`, `SplitXlat` and `SplitRefs` state |
| HostAspace.MapKeepsInv | core/vmm_host_aspace.c:336-413 | mapping keeps the page table the inverse of the hash |
| HostAspace.UnmapOffsetsAgree | core/vmm_host_aspace.c:434-438 | unmapping always passes agreeing offsets to the hash |
| HostAspace.UnmapKeepsInv | core/vmm_host_aspace.c:415-458 | unmapping keeps the page table the inverse of the hash |
| HostAspace.EveryRunRoundTrips | core/vmm_host_aspace.c:336-458 | after every run from the empty address space va2pa(pa2va(pa)) is pa, with the flags of the entry, and the other way round |
| HostAspace.EntriesDisjoint | core/vmm_host_aspace.c:148-205 | live entries have disjoint physical and disjoint virtual ranges |
| HostAspace.EveryRunKeepsInv | core/vmm_host_aspace.c:336-458 | over every run with one page size the page table is exactly the inverse of the hash |
| HostAspace.EmptyIsGood | core/vmm_host_aspace.c:310-334 | an empty address space satisfies the invariant |
| HostAspace.MapCoversIff | core/vmm_host_aspace.c:336-413 | the address returned reaches every byte asked for if and only if each byte behind the rounded size was hashed already, at the matching virtual address with the same flags |
| HostAspace.OffsetIsForgotten | core/vmm_host_aspace.c:336-413 | for every page size, a request of one page whose last byte is not mapped |
| HostAspace.AspaceCtrl.MapPages | core/vmm_host_aspace.c:392-403 | the page loop enters the whole range into the page table |
| HostAspace.AspaceCtrl.UnmapPages | core/vmm_host_aspace.c:445-450 | the page loop removes the whole range from the page table |
| HostAspace.AspaceCtrl.Memmap | core/vmm_host_aspace.c:336-413 | the call in place, page loop included, has the effect that `MapHeld` and `MapUnheld` state |
| HostAspace.AspaceCtrl.Memunmap | core/vmm_host_aspace.c:415-458 | the call in place, page loop included, has the effect that `UnmapUnmapped` and `UnmapMapped` state |
| HostAspaceRefs.MapHeld | core/vmm_host_aspace.c:336-413 | mapping a page that is hashed returns where it is mapped and raises one count, exactly when the flags and the size fit its entry; nothing else changes |
| HostAspaceRefs.MapUnheld | core/vmm_host_aspace.c:336-413 | mapping a page that is not hashed enters the range, with one reference, into hash, page table and pool, exactly when the pool has an aligned address, a slot is free and nothing overlaps; otherwise it fails and changes nothing |
| HostAspaceRefs.UnmapUnmapped | core/vmm_host_aspace.c:415-432 | unmapping a page that is not mapped fails and changes nothing |
| HostAspaceRefs.UnmapMapped | core/vmm_host_aspace.c:415-458 | unmapping with more references left only lowers the count; the last one takes exactly the range out of page table, pool and hash and leaves every other address as it was; it panics exactly when the range leaves its entry, or both residues remain and no slot is free |
| HostAspaceRefs.MapThenUnmapRestores | core/vmm_host_aspace.c:336-458 | mapping a new range and unmapping it restores page table, pool and the physical-to-virtual function |
| HostAspaceRefs.EveryRunCountsReferences | core/vmm_host_aspace.c:336-458 | over every run that names whole entries, the references on an address are its maps less its unmaps, and it translates exactly while that is above zero |
| HostAspaceRefs.StaysWhileReferenced | core/vmm_host_aspace.c:336-458 | no call moves an address that keeps a reference |
| HostAspaceRefs.NthUnmapRemoves | core/vmm_host_aspace.c:336-458 | after n maps of a new range the first n - 1 unmaps leave page table, pool and translation, and the n-th makes them what they were before |
| PagePool.FindBmap | core/vmm_pagepool.c:77-100 | finds the first run of clear pages, or -1 if there is none |
| PagePool.AdjustKeepsListOk | core/vmm_pagepool.c:132-152 | re-placing an entry keeps the list sorted by available pages and complete |
| PagePool.AllocKeepsInv | core/vmm_pagepool.c:245-274 | an allocation is a run of its entry's pages and keeps counts, tree, list and hugepage grants in order |
| PagePool.AllocPanicsIff | core/vmm_pagepool.c:245-274 | the negative position is never met: it panics exactly when no entry has room and no new one can be set up |
| PagePool.RoomIsPassedOverIff | core/vmm_pagepool.c:155-169 | no entry is reused, although some have a clear run, exactly when in each of these the run would use up the available pages or lies at the start |
| PagePool.ThreeClearPagesUnused | core/vmm_pagepool.c:155-169 | an entry with three clear pages that a request for one page passes over |
| PagePool.AllocIsBestFit | core/vmm_pagepool.c:155-169 | of the entries that can be reused the pool takes one with the fewest pages available |
| PagePool.NewEntrySize | core/vmm_pagepool.c:183-199 | a new entry is made of the fewest hugepages that hold the request |
| PagePool.EveryRunKeepsHuge | core/vmm_pagepool.c:172-308 | over every run the hugepages behind each entry are exactly its pages |
| PagePool.FreeAnswers | core/vmm_pagepool.c:276-308 | a free fails, and changes nothing, exactly when the address lies in no entry or more pages are given back than its entry has taken |
| PagePool.FreeKeepsInv | core/vmm_pagepool.c:276-308 | freeing a live allocation succeeds; an entry that becomes wholly free goes, with its hugepages |
| PagePool.FreeingAllEmptiesPool | core/vmm_pagepool.c:276-308 | freeing everything empties the pool and returns every hugepage |
| PagePool.EveryRunKeepsInv | core/vmm_pagepool.c:245-308 | over every run: live ranges disjoint and inside one entry, counts equal clear bits, tree and list agree, list sorted, no wholly free entry |
| PagePool.PoolCtrl.FindAllocEntry | core/vmm_pagepool.c:155-169 | the first entry of the list with enough pages available |
| PagePool.PoolCtrl.AdjustEntry | core/vmm_pagepool.c:132-152 | moves an entry to its place in the list |
| PagePool.PoolCtrl.AddNewEntry | core/vmm_pagepool.c:172-230 | adds an entry over new hugepages, or nothing |
| PagePool.PoolCtrl.Alloc | core/vmm_pagepool.c:245-274 | the call in place computes the specification |
| PagePool.PoolCtrl.Free | core/vmm_pagepool.c:276-308 | the call in place computes the specification |
| Mutex.LockKeepsInv | core/vmm_mutex.c:139-178 | a pass of the lock loop keeps the invariant |
| Mutex.TryLockKeepsInv | core/vmm_mutex.c:110-137 | so does a trylock |
| Mutex.UnlockKeepsInv | core/vmm_mutex.c:79-108 | so does an unlock |
| Mutex.CleanupKeepsInv | core/vmm_mutex.c:30-49 | so does the cleanup of a popped resource, whose owner is still the VCPU |
| Mutex.StepKeepsInv | core/vmm_mutex.c:30-178 | every step of every VCPU keeps: an owner exactly when the count is non-zero, the resource node only on the owner's list, sleepers exactly on their queue |
| Mutex.StepCounts | core/vmm_mutex.c:30-178 | each step changes every VCPU's count of every mutex exactly as the call made and the value it returns say |
| Mutex.LockEffect | core/vmm_mutex.c:139-178 | a lock, first or retried, succeeds exactly when the mutex is free or the caller's, and then raises the caller's count by one; otherwise the caller sleeps at the end of the queue; no other count changes |
| Mutex.TryLockEffect | core/vmm_mutex.c:110-137 | a trylock raises the caller's count by one exactly when the mutex is free or the caller's, and otherwise changes nothing |
| Mutex.UnlockEffect | core/vmm_mutex.c:79-108 | the owner's unlock returns success and lowers its count by one, and at zero wakes the first sleeper; anyone else's is refused and changes nothing |
| Mutex.CleanupEffect | core/vmm_mutex.c:30-49 | the cleanup frees the mutex, however often it had been acquired, and wakes exactly those who slept on it |
| Mutex.FreeIffNobodyHolds | core/vmm_mutex.c:30-178 | after every run a mutex is free exactly when nobody has acquired it more often than released it |
| Mutex.EveryRunCounts | core/vmm_mutex.c:30-178 | in every interleaving the count is the net number of acquisitions, counted from the calls and the values they return |
| Mutex.MutualExclusion | core/vmm_mutex.c:79-178 | two VCPUs with net acquisitions of one mutex are the same VCPU |
| Mutex.WakeupKeptIff | core/vmm_mutex.c:79-178 | a step keeps someone awake for every free mutex with sleepers if and only if it does not take away the only one woken |
| Mutex.EveryRunAwake | core/vmm_mutex.c:79-178 | no lost wake-up in any run in which the only VCPU woken for a mutex neither times out nor is destroyed |
| Mutex.QuietRunNeverLoses | core/vmm_mutex.c:79-178 | runs without timeout and destruction are such runs |
| Mutex.TimeoutLosesWakeup | core/vmm_mutex.c:139-178 | a reachable state in which a timeout or a destruction loses the wake-up |
| Mutex.LockCtrl.LockOnce | core/vmm_mutex.c:139-178 | one pass of the lock loop in place acquires exactly when the mutex is free or the caller's |
| Mutex.LockCtrl.TryLockOnce | core/vmm_mutex.c:110-137 | the call in place acquires exactly when the mutex is free or the caller's |
| Mutex.LockCtrl.UnlockOnce | core/vmm_mutex.c:79-108 | the call in place returns success exactly for the owner, whose count drops by one |
| Mutex.LockCtrl.CleanupOnce | core/vmm_mutex.c:30-49 | the cleanup in place |
| Mutex.LockCtrl.ResourceAdd | core/vmm_manager.c:390-405 | puts the node at the tail of the list |
| Mutex.LockCtrl.ResourceRemove | core/vmm_manager.c:407-421 | takes the node off the list it is on |
| Mutex.LockCtrl.Flush | core/vmm_manager.c:423-445 | after the flush the VCPU owns no mutex and has no resource left; nobody else's count has changed |
| Mutex.DestroyedOwnsNothing | core/vmm_manager.c:615-637 | in every run a destroyed VCPU owns no mutex and has no resource left |
| Mutex.LockCtrl.WakeFirstWaiter | core/vmm_waitqueue.c:238-256 | wakes the first sleeper of the queue, if any |
| Mutex.LockCtrl.WakeAllWaiters | core/vmm_waitqueue.c:278-301 | wakes every sleeper of the queue |
| Mutex.WakeAllEffect | core/vmm_waitqueue.c:278-301 | waking all empties the queue and wakes exactly those who slept on it |
| Cpuhp.SetStateKeepsInvIff | core/vmm_cpuhp.c:66-123 | after a change of state every notifier with both callbacks is started exactly up to the new state if and only if no failing callback cuts one off |
| Cpuhp.FailureIsForgotten | core/vmm_cpuhp.c:66-123 | a failing startup after which the CPU is in the state and the notifier is not started |
| Cpuhp.OkKeepsInv | core/vmm_cpuhp.c:66-123 | a change of state that returns success cuts nothing off |
| Cpuhp.UpsSorted | core/vmm_cpuhp.c:78-91 | startups are called in non-decreasing state order |
| Cpuhp.DownMirrorsUp | core/vmm_cpuhp.c:93-107 | teardowns are called in the mirrored order of the startups |
| Cpuhp.GoingUpCalls | core/vmm_cpuhp.c:78-91 | going up calls the startup of exactly the notifiers that have one and whose state is passed, with or without teardown, in list order and once each, up to the first failure, and adds them to the log |
| Cpuhp.GoingDownCalls | core/vmm_cpuhp.c:93-107 | going down calls the teardown of exactly the notifiers that have one and whose state is left, with or without startup, from the end of the list and once each, up to the first failure |
| Cpuhp.StayingCalls | core/vmm_cpuhp.c:66-123 | no change of state calls nobody |
| Cpuhp.RegisterAdds | core/vmm_cpuhp.c:137-205 | which registrations are refused; any other notifier is on the list afterwards, and its startup is called exactly when asked for and due |
| Cpuhp.UnregisterRemoves | core/vmm_cpuhp.c:207-234 | exactly a notifier on the list can be unregistered; it is off the list afterwards and the others are as they were |
| Cpuhp.PlaceIsStable | core/vmm_cpuhp.c:163-175 | a new notifier goes behind those of its state and in front of the higher ones, the others keep their order |
| Cpuhp.RegisterKeepsInvIff | core/vmm_cpuhp.c:137-205 | a registration leaves the started notifiers in order if and only if the new one, when due, was started before or is invoked and succeeds, and, when not due, was not started before |
| Cpuhp.UnregisterKeepsInv | core/vmm_cpuhp.c:207-234 | so does removing a notifier |
| Cpuhp.EveryRunKeepsInv | core/vmm_cpuhp.c:66-234 | over every such run a notifier with both callbacks is started exactly when its state is at most the CPU's |
| Cpuhp.EveryRunAlternates | core/vmm_cpuhp.c:66-234 | in every clean run in which a notifier is registered with both callbacks and not while started, its startups and teardowns alternate, beginning with a startup |
| Cpuhp.CpuCtrl.constructor | core/vmm_cpuhp.c:236-248 | offline, without notifiers |
| Cpuhp.CpuCtrl.RunStartups | core/vmm_cpuhp.c:78-91 | the startup loop up to the first failure; `GoingUpCalls` says whom it calls |
| Cpuhp.CpuCtrl.RunTeardowns | core/vmm_cpuhp.c:93-107 | the reverse teardown loop up to the first failure; `GoingDownCalls` says whom it calls |
| Cpuhp.CpuCtrl.SetState | core/vmm_cpuhp.c:66-123 | the call in place has the effect that `GoingUpCalls`, `GoingDownCalls` and `StayingCalls` state; the state is set even after a failure |
| Cpuhp.CpuCtrl.FindPlace | core/vmm_cpuhp.c:163-175 | the scan for the place of a new notifier |
| Cpuhp.CpuCtrl.Register | core/vmm_cpuhp.c:137-205 | the call in place computes the specification, with its refusals |
| Cpuhp.CpuCtrl.Contains | core/vmm_cpuhp.c:151-156 | whether the notifier is on the list |
| Cpuhp.CpuCtrl.Unregister | core/vmm_cpuhp.c:207-234 | the call in place computes the specification |
| DevtreePath.PrintFrom | core/vmm_devtree.c:1122-1158 | prints the path of a node into the buffer if it fits with its terminator; otherwise the buffer holds a terminated prefix; nothing beyond the buffer is written |
| DevtreePath.GetPath | core/vmm_devtree.c:1160-1184 | succeeds exactly when the printed path and its terminator fit, holds it then, and never writes behind the length given |
| DevtreePath.PathOfChild | core/vmm_devtree.c:1122-1158 | the path of a child is that of its parent, a separator and its name |
| DevtreePath.TakesLast | core/vmm_devtree.c:1203-1219 | for a last component exactly its own name and its name without the last character are taken |
| DevtreePath.TakesInner | core/vmm_devtree.c:1203-1219 | for an inner component exactly its own name is taken |
| DevtreePath.RoundTripIff | core/vmm_devtree.c:1122-1265 | a node is found under its printed path if and only if no earlier sibling on the way has its name and no earlier sibling of the node has its name without the last character |
| DevtreePath.LookupSpells | core/vmm_devtree.c:1186-1238 | a search stays in the tree, and a path that finds a node spells the names leading to it |
| DevtreePath.LookupIsResolve | core/vmm_devtree.c:1186-1238 | every path finds what its components resolve to, one child at a time |
| DevtreePath.AbsolutePath | core/vmm_devtree.c:1240-1265 | which part of an absolute path is looked up below the root |
| DevtreePath.AddedNode | core/vmm_devtree.c:1747-1794 | a node is added unless a sibling has its name; it is then its parent's last child |
| DevtreePath.AddKeepsTree | core/vmm_devtree.c:1747-1794 | adding keeps sibling names distinct |
| DevtreePath.AddKeepsNode | core/vmm_devtree.c:1747-1794 | adding a node moves, renames and shadows no node that was there |
| DevtreePath.BuiltRoundTripIff | core/vmm_devtree.c:1122-1265 | in every tree built by adding nodes, a node is found under its path if and only if no earlier sibling has its name without the last character |
| DevtreePath.U1IsShadowed | core/vmm_devtree.c:1186-1238 | a node that its printed path does not find |
| DevtreePath.BalancedIff | core/vmm_devtree.c:1186-1238 | for every path, a search keeps a reference on its result and nothing else if and only if no leading components name a node that has a child whose name starts the next component, but none with its name or, for the last one, its name without the last character |
| DevtreePath.AstrayIff | core/vmm_devtree.c:1200-1227 | where a search ends without result among names that start the path, told from the components of the path alone |
| DevtreePath.AstrayLeaks | core/vmm_devtree.c:1186-1238 | such a path: the lookup finds nothing and keeps a reference |
| DevtreePath.DevTree.NextChild | core/vmm_devtree.c:1694-1729 | the reference moves from one child to the next |
| DevtreePath.DevTree.FindChild | core/vmm_devtree.c:1203-1219 | the loop over the children finds the first one taken and tells whether any name starts the path |
| DevtreePath.DevTree.DropUp | core/vmm_devtree.c:1221-1223 | drops one reference on every node up to the start |
| DevtreePath.DevTree.SkipLeading | core/vmm_devtree.c:1196-1198 | skips leading separators |
| DevtreePath.DevTree.Descend | core/vmm_devtree.c:1200-1227 | the walk down the tree holds one reference on each node passed |
| DevtreePath.DevTree.GetChild | core/vmm_devtree.c:1186-1238 | the search in place: result, references left, and exactly when these are more than one on the result |
| DevtreePath.DevTree.GetNode | core/vmm_devtree.c:1240-1265 | the search from the root, or the root without a path |
| DevtreePath.DevTree.AddNode | core/vmm_devtree.c:1747-1794 | adds a node behind its siblings unless one has its name |
| ModuleLayout.PassesAreGood | core/vmm_modules.c:338-379 | without truncation every pass keeps the sections placed so far aligned, in order and below the size |
| ModuleLayout.LayoutIsGoodIff | core/vmm_modules.c:338-379 | the 32-bit layout places every allocatable section, aligned, one behind the other, below `core_size`, divided by the text and read-only sizes, if and only if the layout without truncation is below 2^32 |
| ModuleLayout.HugeSectionWraps | core/vmm_modules.c:338-379 | a section of 2^32 bytes for which no layout is good |
| ModuleLayout.GoodIsDisjoint | core/vmm_modules.c:338-379 | two sections of a good layout do not overlap |
| ModuleLayout.GoodIsDivided | core/vmm_modules.c:338-379 | code lies below `core_text_size`, what is not writable below `core_ro_size`, writable data above |
| ModuleLayout.LayoutIsTight | core/vmm_modules.c:322-379 | a layout that fits wastes no room: each section is at the first aligned place behind another, a part or the start |
| ModuleLayout.PartsShareNoPage | core/vmm_modules.c:338-379 | with page-aligned parts no page mixes code with anything else or read-only with writable sections |
| ModuleLayout.RoundUpWraps | core/vmm_modules.c:322-332 | rounding up past 32 bits truncates to 0 |
| ModuleLayout.TailIsChainedIff | core/vmm_modules.c:404-443 | symbol table, string table and the rooms behind them follow the sections if and only if they fit in 32 bits |
| ModuleLayout.TailIsAligned | core/vmm_modules.c:404-443 | tables that fit are at the first aligned place behind one another, and the last room ends the module |
| ModuleLayout.FittingModuleIsReady | core/vmm_modules.c:338-443 | in a module that fits all sections, tables included, have disjoint places below the final size |
| ModuleLayout.NobitsIsZero | core/vmm_modules.c:445-477 | a section without file contents is all zero in the image |
| ModuleLayout.AddressIsAligned | core/vmm_modules.c:445-477 | a section aligned to at most a page is aligned in memory too |
| ModuleLayout.ModuleWrap.GetOffset | core/vmm_modules.c:322-332 | the next aligned offset and the new size, in 32 bits |
| ModuleLayout.ModuleWrap.LayoutPass | core/vmm_modules.c:356-364 | one pass over the headers places the sections of its masks that have no place yet |
| ModuleLayout.ModuleWrap.LayoutSections | core/vmm_modules.c:338-379 | the four passes compute the layout, and it is good if and only if the sections fit |
| ModuleLayout.ModuleWrap.LayoutSymtab | core/vmm_modules.c:404-443 | the tables and their rooms are placed behind the sections |
| ModuleLayout.ModuleWrap.MoveSection | core/vmm_modules.c:461-474 | copies the contents of one section to its place and disturbs no other |
| ModuleLayout.ModuleWrap.MoveModule | core/vmm_modules.c:445-477 | every section with file contents appears intact in the pages, everything else below the size is zero, nothing behind it changes |
| GuestRegions.MapsTile | core/vmm_guest_aspace.c:188-212 | the mappings follow one another without gap or overlap from the start of the region to its end, none empty |
| GuestRegions.IndexIsBelowCount | core/vmm_guest_aspace.c:214-232 | the index computed for a byte of the region is that of the mapping holding it, and below the count |
| GuestRegions.FindMappingTranslates | core/vmm_guest_aspace.c:234-266 | the host address found is that of a whole run of guest bytes, byte for byte |
| GuestRegions.FindMappingAvailable | core/vmm_guest_aspace.c:234-266 | bytes are available exactly for an address inside the region |
| GuestAdded.HostOfMapping | core/vmm_guest_aspace.c:188-266 | byte k of mapping i lies k bytes behind the host address of the mapping |
| GuestRegions.FindRegionIsScan | core/vmm_guest_aspace.c:95-186 | the tree walk returns a region if and only if it holds the address and has all the flags |
| GuestRegions.RegionsApart | core/vmm_guest_aspace.c:617-659 | two regions of one address type share no address |
| IntervalTree.FindCollision | core/vmm_guest_aspace.c:617-659 | finds an interval that collides, if there is one |
| GuestMemory.FindForAccess | core/vmm_guest_aspace.c:95-186 | where the address lies in an alias, what alias resolution returns does not hold it |
| GuestMemory.TransIsLongest | core/vmm_guest_aspace.c:318-396 | the reference translation is the longest run of guest bytes lying directly in real memory regions with host pages that can be mapped |
| GuestMemory.ChunkTranslates | core/vmm_guest_aspace.c:318-396 | one chunk of the loops is the next part of that run |
| GuestMemory.GuestRead | core/vmm_guest_aspace.c:318-356 | the bytes read are those of the longest run, although cut by region, mapping and page |
| GuestMemory.GuestWrite | core/vmm_guest_aspace.c:358-396 | exactly the bytes of the longest run are written, in order, and nothing else changes |
| GuestMemory.WriteThenReadIff | core/vmm_guest_aspace.c:318-396 | a full write followed by a read returns the same bytes if and only if guest bytes sharing a host byte were written the same |
| GuestMemory.HostMem.Read | core/vmm_host_aspace.c:627-679 | page by page, the bytes up to the first page that cannot be mapped |
| GuestMemory.HostMem.Write | core/vmm_host_aspace.c:681-733 | page by page, writes the bytes up to the first page that cannot be mapped and nothing else |
| GuestRam.GiveUndoesTake | core/vmm_guest_aspace.c:982-1131 | whatever the loops that take host RAM achieved, the loop that frees restores the banks when the sizes agree |
| GuestRam.ClearMiddle | core/vmm_guest_aspace.c:1196-1213 | runs of frames can be given back in any order |
| GuestRam.AllocFrees | core/vmm_guest_aspace.c:1002-1027 | a run granted inside its bank is the run that freeing it clears |
| GuestRam.ColourIsEven | core/vmm_guest_aspace.c:917-922 | the mappings of a colour region are one colour page each |
| GuestRam.SmallMappingsAreLost | core/vmm_guest_aspace.c:1002-1131 | mappings below the alignment lose frames as soon as the first one is granted |
| GuestRam.AllocatedIsRestoredIff | core/vmm_guest_aspace.c:1002-1131 | freeing an allocated region, after success or any failure, restores the banks if and only if its mapping order is at least its alignment order or the first mapping was refused |
| GuestRam.SmallMappingsLeak | core/vmm_guest_aspace.c:1002-1131 | a region whose deletion leaves two frames taken |
| GuestAspace.DefaultOrder | core/vmm_guest_aspace.c:884-895 | the smallest order that holds the region |
| GuestAspace.PreparedIsTiled | core/vmm_guest_aspace.c:884-944 | the region built from a valid node is not empty, its mappings tile it and hold no RAM yet |
| GuestAspace.MapOrderBelowAlignIff | core/vmm_guest_aspace.c:897-915 | an allocated region has mappings below its alignment if and only if its node asks for them |
| GuestAdded.MapOrderIs | core/vmm_guest_aspace.c:884-922 | the mapping order of every region, by its node, alignment and size |
| GuestAdded.SingleMapping | core/vmm_guest_aspace.c:884-929 | only real allocated and coloured regions have more than one mapping |
| GuestAdded.FlagsMatchNode | core/vmm_guest_aspace.c:714-788 | each flag of a region, by what the node says |
| GuestAdded.ValidNodes | core/vmm_guest_aspace.c:458-615 | what a node needs, by its kind, to be valid |
| GuestAspace.LinkKeepsInv | core/vmm_guest_aspace.c:1069-1101 | insertion fails exactly on an overlap, and keeps search trees of disjoint non-empty regions |
| GuestAspace.UnlinkKeepsInv | core/vmm_guest_aspace.c:1156-1168 | so does removal |
| GuestAspace.AddKeepsSound | core/vmm_guest_aspace.c:679-1141 | adding, successful or not, keeps trees, probe lists and registrations sound |
| GuestAspace.DelKeepsSound | core/vmm_guest_aspace.c:1143-1231 | so does deleting |
| GuestAdded.AddAnswers | core/vmm_guest_aspace.c:679-1141 | the answer of an addition: each way to fail, in the order of the checks, and success when none applies |
| GuestAdded.AddedRegion | core/vmm_guest_aspace.c:704-882 | address, size, flags, alignment and references of an added region are those of the node |
| GuestAdded.AddedHost | core/vmm_guest_aspace.c:931-980 | byte k of an added region lies k bytes behind the host address of the node or of the shared memory; of a region that is not real, at its own address |
| GuestAdded.AddedFrames | core/vmm_guest_aspace.c:982-1053 | each mapping of a reserved, allocated or coloured region lies on a run of frames that was clear and is taken, at the address granted; mapping i of a coloured one on colour first + i mod num; no other frame changes |
| GuestAdded.AddedWithoutFrames | core/vmm_guest_aspace.c:982-1053 | no other region takes frames |
| GuestAdded.AddedRegistrations | core/vmm_guest_aspace.c:1055-1105 | what an added region is registered with, and the end of its probe list |
| GuestAdded.AddedIsFound | core/vmm_guest_aspace.c:1069-1101 | an added region is found at each of its addresses by the node's flags, and nothing changes elsewhere |
| GuestAdded.DeletedIsGone | core/vmm_guest_aspace.c:1143-1168 | a deleted region is found nowhere, and nothing changes elsewhere |
| GuestAdded.DelReturns | core/vmm_guest_aspace.c:1196-1231 | with host RAM a deletion returns success even when the architecture reported an error; without, what that reported |
| GuestAspace.FailedAddChangesOnlyRam | core/vmm_guest_aspace.c:679-1141 | a failing addition always restores trees, probe lists, node and shared memory references and registrations |
| GuestAspace.SmallAddLoses | core/vmm_guest_aspace.c:982-1141 | a failing addition with mappings below the alignment loses frames wherever it fails behind the first grant |
| GuestAspace.AddIsAllOrNothingIff | core/vmm_guest_aspace.c:679-1141 | a failing addition restores everything, host RAM included, if and only if the node does not ask for mappings below the alignment or nothing was granted yet |
| GuestAspace.FailedAddLeaks | core/vmm_guest_aspace.c:982-1141 | a node whose failing addition leaves frames taken |
| GuestAspace.AddThenDelRestoresIff | core/vmm_guest_aspace.c:679-1231 | adding and deleting restores everything but host RAM, and host RAM if and only if the node does not ask for mappings below the alignment |
| GuestAspace.EveryRunIsSound | core/vmm_guest_aspace.c:679-1231 | over every run the trees stay search trees of pairwise disjoint non-empty tiled regions |
| GuestAspace.EveryRunIsAccounted | core/vmm_guest_aspace.c:679-1231 | over every run of additions and deletions in any order, the frames and references held are exactly those of the regions there are |
| GuestAspace.DeletingAllRestores | core/vmm_guest_aspace.c:679-1231 | once all regions are deleted, all host RAM, references and registrations are back |
| GuestAspace.GuestCtrl.FindOrder | core/vmm_guest_aspace.c:884-895 | the loop for the default mapping order |
| GuestAspace.GuestCtrl.Build | core/vmm_guest_aspace.c:704-947 | the region read from a valid node, or the error |
| GuestAspace.GuestCtrl.Collides | core/vmm_guest_aspace.c:617-659 | whether the region overlaps one of its tree |
| GuestAspace.GuestCtrl.TakeMapping | core/vmm_guest_aspace.c:982-1053 | one reservation or allocation for a mapping |
| GuestAspace.GuestCtrl.TakeLoop | core/vmm_guest_aspace.c:982-1053 | the three loops that take host RAM, up to the first failure |
| GuestAspace.GuestCtrl.GiveLoop | core/vmm_guest_aspace.c:1196-1213 | the loop that frees the host RAM of a region, with its return code |
| GuestAspace.GuestCtrl.Hook | core/vmm_guest_aspace.c:1055-1067 | device emulator and architecture both take on the region, or neither |
| GuestAspace.GuestCtrl.Link | core/vmm_guest_aspace.c:1069-1101 | puts the region into its tree and on the probe list, or changes nothing |
| GuestAspace.GuestCtrl.Finish | core/vmm_guest_aspace.c:1055-1115 | all of the last steps or none |
| GuestAspace.GuestCtrl.Undo | core/vmm_guest_aspace.c:1116-1140 | gives back host RAM, shared memory and node |
| GuestAspace.GuestCtrl.OccupyRegion | core/vmm_guest_aspace.c:982-1140 | from the RAM on, with the failure paths in reverse order |
| GuestAspace.GuestCtrl.RegionAdd | core/vmm_guest_aspace.c:679-1141 | the call in place, references and failure paths included, has the effect that `AddAnswers`, `AddedRegion`, `AddedHost` and `AddedFrames` state |
| GuestAspace.GuestCtrl.Unlink | core/vmm_guest_aspace.c:1156-1194 | takes the region out of tree, probe list, architecture and emulator |
| GuestAspace.GuestCtrl.RegionDel | core/vmm_guest_aspace.c:1143-1231 | the call in place computes the specification, with its return code |

## Left out

- Addresses and sizes are unbounded naturals: wrap-around of 64-bit addresses and truncation of page counts to 32 bits are not modelled, except in `ModuleLayout`.
- Locks and interrupt masking: each modelled call is atomic, except in `Mutex`, whose steps are the sections under one lock.
- Red-black rebalancing: trees keep search order only, since no answer depends on the shape.
- Bitmap words: a bank is the set of its set bits; two banks whose bitmaps share memory are not modelled.
- The buddy allocators behind the heap and the virtual address pool are parameters with contracts; page-table and unmap calls of the architecture are assumed to succeed in `HostAspace`.
- PagePool.AllocKeepsInv: the hugepages for a new entry are assumed to be page aligned and apart from the others. The code does not check for a failed hugepage allocation, which reports address 0; the model takes that 0 for the base as the code does, and counts it as granted.
- PagePool.PoolCtrl.AddNewEntry: the same holds for the hugepages it is given.
- HostRamRuns.EveryRunKeepsInv: covers runs in which each range found stays in its bank; `FirstFitStaysInBankIff` says exactly when it does, and `EveryColourRunKeepsInv` needs no such assumption.
- GuestAspace.AddIsAllOrNothingIff: its host RAM half is for grants that stay in their banks and banks that lie apart; `FailedAddChangesOnlyRam` and `SmallAddLoses` need neither.
- GuestAspace.EveryRunIsAccounted: for additions whose grants stay in their banks and that do not ask for mappings below the alignment; `EveryRunIsSound` needs neither.
- HostAspaceRefs.EveryRunCountsReferences: for calls that name whole entries, since an unmap of a part drops a reference of the whole entry; `UnmapMapped` and `StaysWhileReferenced` are for any call.
- GuestAdded.DelReturns: for mappings that lie in banks, as granted ranges that stay in their banks do.
- GuestMemory.FindForAccess: alias resolution is a parameter; its loop need not end on alias cycles, and reads and writes stop at an alias whatever it returns.
- GuestMemory.HostMem.Read: a page that is mapped, copied and then fails to unmap is not modelled.
- GuestMemory.HostMem.Write: nor is a page that is mapped, written and then fails to unmap.
- GuestAspace.GuestCtrl.RegionDel: the callers that empty the trees before deleting (`vmm_guest_aspace_deinit`) are left out.
- GuestAspace.GuestCtrl.Build: an attribute that is present but empty counts as missing; the unchecked allocation of the region record is assumed to succeed.
- Mutex.EveryRunAwake: fairness and the time a timeout takes are left out; a timeout is a step that may happen whenever a VCPU has been woken.
- Cpuhp.CpuCtrl.Register: the startup on other CPUs by inter-processor call is left out; the model is one CPU.
- DevtreePath.RoundTripIff: names on the way to the node are non-empty and no name contains a separator, as section 2.2.1 of the Devicetree Specification demands.
- DevtreePath.DevTree.AddNode: names fill at most 31 characters; longer ones lose their terminator in the source.
- ModuleLayout.ModuleWrap.LayoutSymtab: the counts of core symbols and of their string bytes are parameters; offsets are computed on a 64-bit `long`.
- Iommu.Domain.Map: the driver's unmap callback is assumed to remove and report a non-empty multiple of the smallest page, no longer than asked, and its failing map callback to change nothing.
- Attributes, deletion and copying of device-tree nodes, symbol resolution and relocation of modules, scheduling, virtual interrupts, device emulation and all of `commands/`: other parts of the repository.
