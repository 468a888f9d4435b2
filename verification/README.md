# Resource management of the tt-win-kmd driver, in Dafny

The driver hands out one Blackhole device to any number of open handles. This
project models what it manages for them and proves that the allocators, the
cross-referencing tables, the failure paths and the teardown order agree, for
every input and along every run. Giving memory back is an effect with a
precondition (no enabled aperture reaches it, no view shows it), so a handler that
did it too early would not verify.

| files | what they model |
|---|---|
| `Iatu` | the 16 outbound iATU regions: insertion sort, bottom-up and top-down first fit over [0, 2^58-1], the hardware records |
| `TlbTokens`, `TlbPool`, `WindowRegisters` | the mmap-offset namespace, the window pool, and the 96-bit window registers packed one bit at a time |
| `MemoryState`, `MemoryOps`, `MappingOps`, `LifecycleOps` | one device's buffers, views, pinnings, windows and slots as a value; its invariant; every request, callback and reset as a transition |
| `MemoryUndo` | what a request does, the matching release undoes, as equality of whole device states |
| `RequestResults` | each memory request as its caller sees it: when it succeeds, what its reply and its tokens mean, where every byte of a view or a pinned range is, what a refusal says |
| `ResetResults` | RESET_DEVICE and the flag that gates the device: each flavour's effect and report, and who is refused when, over whole runs |
| `Isolation` | what one handle does leaves every other handle as it was |
| `MemoryRuns` | whole runs: what holds in every later state, whatever the other handles do |
| `KernelState` | what the kernel and the hardware hold for the handles: memory handed out, enabled apertures and what they reach, user views; when each may be given back |
| `FileContext`, `MemoryDevice`, `Driver` | the same handlers in the driver's own form: lists, arrays and counters updated in place, `goto fail` paths included, each proved to be its transition and to release what it holds in a safe order |
| `MemoryDispatch` | every request and callback of a device, from one healthy state to the next, as a step of the runs |
| `TwoStep` | UNPIN_PAGES and UNMAP in two halves, and what FREE_DMA_BUF_EX does in between |
| `TlbRaces` | ALLOCATE_TLB and CONFIGURE_TLB in two halves, any stretch of a run in between, and who owns a window when |
| `HardwareRuns` | the hardware's own regions beside a run, cleared by any of the resets |
| `Reached` | runs to the states in which the failing cases of the other modules start |
| `Locks`, `LockManager` | the 64 resource locks with the pended queue and its wake pass of at most 64, completions included |
| `LockReplies` | what LOCK_CTL and the wake passes tell whom, by who holds what |
| `ArcSpec`, `ArcQueue` | the request and response rings shared with firmware, with firmware steps before every driver access |
| `Power` | multi-client power aggregation and its wire layout |
| `Quota` | the DMA-buffer ceiling, with its atomic add and its rollback as separate steps |
| `LockOrder` | the lock structure of every handler and deadlock freedom |

How the parts fit: `MemoryState.Inv` is the invariant of one device.
`MemoryRuns.StepKeepsInv` proves every transition keeps it, so
`MemoryRuns.AllRuns` gives it in every reachable state, and the run theorems
(translation stability, staleness, process exit, reference safety) read their
conclusions off it. The methods of `MemoryDevice.Device` change the tables step
by step and end exactly in the transition of the same name. On the way they ask
`KernelState.Kernel` for memory, aim apertures at it, map views of it and give it
back. `KernelState.Matches` says that what is held is exactly what the objects of
the state account for; `MemoryDispatch` shows that every request and callback keeps
it together with the invariant (`Device.Healthy`) and is a `MemoryRuns.Step`.
`RequestResults`, `ResetResults`, `Isolation` and `LockReplies` say what these
transitions mean without their own vocabulary: in handles, bytes, numbers of the
interface and positions in lists.

Conventions. A bitmap is the set of its set bits in the lock model; in the power
model OR and shifts are written with division and remainder. Addresses are
mathematical integers where a 64-bit sum provably cannot wrap, and `u64` or
explicit remainders where that is the point (gap scans, ring pointers). The DMA
byte counter is an integer, with a proof that it stays inside 64 bits under a
limit. An iATU region is a record, not byte offsets. A pointer to a `TT_DMABUF`
is modelled by the record, which never changes while it is in its slot; `ptr`
gives it its identity. `noc` and `physical` in a buffer or pinning record keep
what the request reported, so that later states can be compared with it; the
driver recomputes or forgets them. What the kernel's own calls return (common
buffers, pool, MDLs, page locking, output buffers, PCI and firmware work of a
reset) is a parameter of the request; that bus addresses and page frames fit in
64 bits is assumed of them.

## Results that are not plain confirmations

- UNPIN_PAGES stops at the first pinning with the address, so a later pinning of
  another size at the same address cannot be released before it
  (`MappingOps.UnpinSucceedsIff`, `Reached.UnpinCanMissItsPinning`,
  `MemoryUndo.UnpinUndoesPinIff`).
- The BAR0 branch of the token decoder does not stop at 202 windows
  (`TlbTokens.DecodeNamesItsWindowIff`, `TlbTokens.DecodeCanMisname`), so the owner
  of a 4 GiB window can map 2 MiB of BAR0 that lie in no window, under that window's
  id (`MappingOps.ViewInsideItsWindowIff`, `MappingOps.ViewOutsideItsWindow`).
- A 4 GiB window cannot be mapped whole: MAP takes lengths of at most 2^32-1
  (`MappingOps.OwnWindowMapsIff`, `MappingOps.WholeBigWindowRefused`).
- UNPIN_PAGES and UNMAP delist under the file lock and destroy after it. In between,
  FREE_DMA_BUF_EX finds the buffer unreferenced and deletes memory that an aperture
  still reaches or a view still shows. It is safe exactly when no delisted object
  that is not destroyed yet refers to the buffer (`TwoStep.FreeIsSafeIff`,
  `TwoStep.FreeRacesUnpin`, `TwoStep.FreedWhileTargeted`, `TwoStep.FreeRacesUnmap`;
  runs to the two states: `Reached.UnpinRaceIsReached`, `Reached.UnmapRaceIsReached`).
- An ALLOCATE_TLB with too short an output buffer clears its window after letting go of
  TlbLock. A MAP in between leaves a view of a window nobody owns, a FREE_TLB in
  between lets it take another handle's window. It is safe exactly when the window is
  free or still the handle's and the handle has no view of it
  (`TlbRaces.RollbackIsSafeIff`, `TlbRaces.RollbackRacesMap`,
  `TlbRaces.RollbackRacesFree`; runs: `Reached.RollbackMapRaceIsReached`,
  `Reached.WindowRacesAreReached`).
- CONFIGURE_TLB writes the registers after its owner check has let go of TlbLock, so
  the write can land on the next owner's window; it does not exactly when the handle
  has not given the window up in between, or has been given it again
  (`TlbRaces.LateWriteIsOwnersIff`, `TlbRaces.LateWrite`,
  `Reached.WindowRacesAreReached`).
- The driver does not program the outbound regions again after a reset; what it
  reported holds of the hardware exactly until a reset clears them
  (`HardwareRuns.BufferTranslatedIff`, `HardwareRuns.PinTranslatedIff`).
- `(wptr - rptr) % (2*N)` in 32 bits is the ring occupancy exactly when 2N
  divides 2^32; N = 3 fails (`ArcSpec.OccupancyExactIff`,
  `ArcSpec.PowersOfTwoWrapCleanly`).
- After a send that gave up, replies are off by one from then on
  (`ArcSpec.ReplyMatchesIff`).
- A wakeup can be lost beyond the batch cap, and a closing handle can win its
  own lock back (`LockSpec.WakeLosesNothingIff`, `LockSpec.WakeupLostBeyondCap`,
  `LockSpec.ClosingHandleHolds`, `LockSpec.ClosingHandleCanRegainItsLock`); after a
  lost wakeup a generation bump can grant a lock (`LockSpec.BumpKeepsLocksIff`,
  `LockSpec.BumpCanGrant`).
- A reservation can be refused although it fits, while another refused one is
  being taken back (`QuotaSpec.RefusedIff`, `QuotaSpec.SpuriousRefusal`).
- A one-byte iATU region at base 0 is claimed but left disabled, because its
  limit is 0; no caller asks for one (`Iatu.IatuTable.SetupNocDma`).

Where code and comments differ the code is followed: the DMA-buffer token base is
0xF000000000, not the number in the comment beside it
(`src/include/ttkmd_ioctl.h:498`), and `Iatu[].Target` is never set on a claim
(`src/driver/memory.c:317-320`), so the target lives in the hardware record only.

## Model

| member | source | states |
|---|---|---|
| `Iatu.BestIsUnique` | src/driver/memory.c:282-315 | the promised base (highest fitting top-down, lowest bottom-up) is unique |
| `Iatu.ClaimKeepsDisjoint` | src/driver/memory.c:317-320 | claiming any fitting range keeps all claimed regions disjoint and inside [0, 2^58-1] |
| `Iatu.OneTarget` | src/driver/blackhole.c:142-171 | an address inside a claimed region has exactly one translation |
| `Iatu.InsertByBase` | src/driver/memory.c:268-273 | one insertion yields the ascending, disjoint list with the new entry in place |
| `Iatu.IatuTable.Collect` | src/driver/memory.c:263-277 | the sorted copy has exactly the used regions; the slot is the first unused one |
| `Iatu.LowestGap` | src/driver/memory.c:282-294 | returns the lowest fitting base, none only if nothing fits, and no 64-bit step wraps |
| `Iatu.HighestGap` | src/driver/memory.c:295-315 | returns the highest fitting base, none only if nothing fits |
| `Iatu.SameFits` | src/driver/memory.c:263-277 | a base fits between the sorted entries if and only if it fits the table |
| `Iatu.GapIsBest` | src/driver/memory.c:282-315 | the scan of the sorted copy is optimal over the whole table |
| `Iatu.IatuTable.FindAndClaim` | src/driver/memory.c:247-322 | first free slot and extreme fitting base; -1 exactly when all 16 are used or nothing fits, and then nothing changes |
| `Iatu.IatuTable.ConfigureOutboundAtu` | src/driver/blackhole.c:142-179 | over 1 TiB or bad index refused; limit 0 disables; no other region changes |
| `Iatu.IatuTable.SetupNocDma` | src/driver/memory.c:326-367 | claim and hardware record agree and carry the target, or both tables are as before |
| `Iatu.IatuTable.TeardownNocDma` | src/driver/memory.c:371-391 | the slot is freed; its aperture is disabled unless the device is detached |
| `TlbTokens.WindowRoundTrip` | src/driver/memory.c:698-741 | every ALLOCATE_TLB token decodes to its own id, BAR, offset and cache type for any length up to the window |
| `TlbTokens.SlotRoundTrip` | src/driver/memory.c:662-681 | every ALLOCATE_DMA_BUF token decodes to its slot |
| `TlbTokens.DecodeNamesItsWindowIff` | src/driver/memory.c:708-728 | a decoded id is the window at that place if and only if it is a BAR4 token or the id is below 202; then the token is that window's own |
| `TlbTokens.DecodeCanMisname` | src/driver/memory.c:708-715 | a concrete BAR0 token that decodes to a BAR4 window's id |
| `TlbTokens.TokenRangesDisjoint` | src/include/ttkmd_ioctl.h:488-499 | BAR, window and buffer token ranges never overlap |
| `TlbPool.WindowPool.constructor` | src/driver/device.c:590-596 | only the kernel window is used, nobody owns anything |
| `TlbPool.WindowPool.Claim` | src/driver/memory.c:108-117 | the first free window of the pool, or none is free; window 201 is never given out |
| `TlbPool.WindowPool.ReleaseOwned` | src/driver/memory.c:1307-1315 | exactly the closing handle's windows are given back |
| `TlbPool.WindowPool.Configure` | src/driver/memory.c:222-230 | only the owner reaches a window's registers; on success no other window's registers change, on a refusal none do (one handler at a time) |
| `WindowRegisters.SetBits` | src/driver/blackhole.c:26-41 | ORs exactly the value's low bits at the offset, across words, and no other bit |
| `WindowRegisters.FieldReadsBack` | src/driver/blackhole.c:36-40 | a field reads back as Value mod 2^len |
| `WindowRegisters.UnpackInvertsPack` | src/driver/blackhole.c:100-122 | for any non-overlapping layout every field reads back modulo its width |
| `WindowRegisters.DisjointLayout` | src/driver/blackhole.c:100-122 | the 2M and 4G layouts do not overlap |
| `WindowRegisters.WindowDecodes` | src/driver/blackhole.c:85-136 | a packed register decodes to the request, fields modulo their width and the aligned 64-bit address exactly |
| `WindowRegisters.AlignedAddress` | src/driver/blackhole.c:94-112 | an aligned address survives the shift into its field |
| `WindowRegisters.RegisterBlock.ConfigureUserTlb` | src/driver/blackhole.c:85-136 | unaligned refused unwritten; otherwise the window decodes to the request, its strided word is cleared, all else is unchanged |
| `WindowRegisters.RegisterBlock.ConfigureKernelTlb` | src/driver/blackhole.c:47-76 | window 201 decodes to the granule holding the address; no other register changes |
| `WindowRegisters.UnwrittenFieldsAreZero` | src/driver/blackhole.c:62-67 | fields the kernel window leaves out decode as zero |
| `MemoryState.StartInv` | src/driver/device.c:590-596 | the prepared device satisfies the invariant, re-initialisation due or not |
| `MemoryState.BufferTranslates` | src/driver/memory.c:502-534 | every byte of a live buffer's NOC range has the one target inside the buffer |
| `MemoryState.PinningTranslates` | src/driver/memory.c:1075-1118 | the same for a pinning; a backed one stays inside its live buffer |
| `MemoryState.SlotsConserved` | src/driver/memory.c:317-320 | a slot is used if and only if exactly one object uses it, and that object's handle is the recorded owner |
| `MemoryState.UpdateKeepsInv` | src/driver/memory.c:474-544 | a step that touches only free entries and its own handle's leaves every other handle's objects sound |
| `MemoryOps.GateIff` | src/driver/ioctl.c:232-257 | the gate passes exactly for a current handle of an attached device and, while re-initialisation is due, the exempt requests |
| `MemoryOps.AllocateTlbKeepsInv` | src/driver/memory.c:74-148 | ALLOCATE_TLB and its rollback, as one step, keep the invariant; in two halves see `TlbRaces.RollbackIsSafeIff` |
| `MemoryOps.FreeTlbKeepsInv` | src/driver/memory.c:152-200 | FREE_TLB leaves no view of the freed window |
| `MemoryOps.SetUpRoutes` | src/driver/memory.c:326-367 | a region just set up carries its object's range to its target, and every other slot is as before |
| `MemoryOps.AllocateBufKeepsInv` | src/driver/memory.c:440-568 | ALLOCATE_DMA_BUF keeps the invariant, byte count and limit included |
| `MemoryOps.FreeBufKeepsInv` | src/driver/memory.c:597-627 | freeing an unreferenced buffer leaves no dangling reference and no leaked slot |
| `MemoryOps.ReleasedIsUnreachable` | src/driver/memory.c:371-391 | after a teardown no NOC address of the object reaches anything |
| `MemoryOps.FreedBufferIsUnreachable` | src/driver/memory.c:426-436 | in the state FREE_DMA_BUF_EX leaves, no byte of the freed buffer's NOC range is translated; that the aperture goes before the memory is `KernelState.Kernel.FreeMemory`'s precondition |
| `RequestResults.GateTells` | src/driver/ioctl.c:232-257 | what every request number is told at the gate: DEVICE_REMOVED when stale or gone, while re-initialisation is due NOT_READY for telemetry and DEVICE_REMOVED for all but the four exempt ones |
| `RequestResults.ForeignProcessRefused` | src/driver/ioctl.c:538-546 | a process other than the creator is refused MAP, UNMAP and UNPIN_PAGES, whatever the arguments, with nothing changed |
| `RequestResults.ForeignPinRefused` | src/driver/ioctl.c:538-546 | and PIN_PAGES |
| `RequestResults.AllocateTlbSucceedsIff` | src/driver/memory.c:74-148 | succeeds if and only if an in-service handle asks a Blackhole for a size of which it has a free window, kernel window excepted, and the reply fits; the lowest one changes hands, or nothing changes |
| `RequestResults.TlbReplyMeans` | src/driver/memory.c:134-135 | the first token of the reply is the window uncached, the second the same write-combined; both decode to it and MAP resolves them to its own start for every length up to its size |
| `RequestResults.FreeTlbSucceedsIff` | src/driver/memory.c:152-200 | succeeds if and only if the in-service handle owns the window and no view is tied to it; then the window alone is free |
| `RequestResults.TlbRequestTells` | src/driver/memory.c:86-176 | which refusal means what, for both window requests |
| `RequestResults.RoomIff` | src/driver/memory.c:282-315 | a range fits the region table if and only if it lies below 2^58 and meets no claimed region |
| `RequestResults.RegionAvailableIff` | src/driver/memory.c:326-367 | set-up is possible if and only if a slot is free and some range fits |
| `RequestResults.SetUpPlaces` | src/driver/memory.c:326-367 | the NOC address given is the highest fitting one top-down and the lowest bottom-up |
| `RequestResults.AllocateBufSucceedsIff` | src/driver/memory.c:440-568 | succeeds if and only if size and slot are legal, the bytes fit under the ceiling, the memory is in reach, a region can be had when asked for and no kernel call fails; what the slot then holds and where its NOC address is, or nothing changed |
| `RequestResults.AllocateBufTells` | src/driver/memory.c:455-500 | bad arguments before the ceiling, the ceiling before everything that can fail |
| `RequestResults.FreeBufSucceedsIff` | src/driver/memory.c:575-635 | succeeds if and only if the slot is used and neither a view shows the buffer nor a pinning is backed by it; then that slot and its bytes are given back |
| `MappingOps.WindowTokenResolvesIff` | src/driver/memory.c:698-741 | a window's token resolves for its owner to the window's start and the token's cache type, at any length inside it, and is refused to everyone else |
| `MappingOps.OwnWindowMapsIff` | src/driver/memory.c:814-906 | the owner's MAP of whole pages of the window succeeds if and only if the length fits in 32 bits |
| `MappingOps.WholeBigWindowRefused` | src/driver/memory.c:834-839 | so MAP of a whole 4 GiB window is refused and changes nothing |
| `MappingOps.ViewInsideItsWindowIff` | src/driver/memory.c:705-741 | a view tied to a window id lies inside that window if and only if the token is a BAR4 one or the id is below 202 |
| `MappingOps.ViewOutsideItsWindow` | src/driver/memory.c:708-715 | the owner of window 202 resolves 2 MiB of BAR0 beyond the windows under that id |
| `RequestResults.BufferTokenShows` | src/driver/memory.c:662-681 | the token of slot i shows that slot's buffer from its first byte, cached, for any length up to its size, and nothing for an empty slot |
| `RequestResults.BarTokenShows` | src/driver/memory.c:683-695 | regions 0 to 5 show BAR 0, 2 and 4 from the BAR's base plus the offset, inside the BAR, the odd ones write-combined; anything past its end is refused |
| `RequestResults.OtherTokensRefused` | src/driver/memory.c:645-745 | a token that resolves is a slot's, a BAR region's or in the two window ranges |
| `MappingOps.MapKeepsInv` | src/driver/memory.c:814-906 | MAP keeps the invariant: views only of live buffers, owned windows, current handles |
| `RequestResults.MapSucceedsIff` | src/driver/memory.c:814-906 | succeeds if and only if the creator asks through an up-to-date handle for whole pages a token resolves to and no kernel call fails; the new view shows what the token resolves to, with its cache type, and a refusal changes nothing |
| `RequestResults.UnmapSucceedsIff` | src/driver/memory.c:910-950 | succeeds if and only if the creator names an address where a view starts; the oldest such view goes, nothing else |
| `RequestResults.ViewRequestTells` | src/driver/memory.c:834-870 | which refusal MAP, UNMAP and FREE_DMA_BUF_EX report |
| `MappingOps.FirstAt` | src/driver/memory.c:933-942 | the position of the first entry at an address, as the searches of UNMAP and UNPIN_PAGES stop there |
| `MappingOps.UnmapKeepsInv` | src/driver/memory.c:910-950 | UNMAP keeps the invariant |
| `MappingOps.FindViewFindsFirst` | src/driver/memory.c:958-984 | the search finds the first view containing the range, with the range's offset in it, or none if there is none |
| `MappingOps.ViewInsideBuffer` | src/driver/memory.c:1047-1076 | a range inside a view is inside its live buffer |
| `MappingOps.PinKeepsInv` | src/driver/memory.c:988-1150 | PIN_PAGES and its rollback keep the invariant |
| `MappingOps.FramesAreLinear` | src/driver/memory.c:1094-1104 | consecutive frames make the whole range linear |
| `MappingOps.DirectPinIsLinear` | src/driver/memory.c:1094-1104 | every byte of a directly pinned range is at the reported address plus its offset |
| `RequestResults.PinReportsRange` | src/driver/memory.c:1107-1150 | every byte of a pinned range is at the reported address plus its offset: as far into the buffer as it is into the oldest view that contains the range, or in its own locked frame |
| `RequestResults.BackedPinIsLinear` | src/driver/memory.c:1047-1076 | that view, for a pinning backed by a buffer: byte k is at the buffer's address plus the byte's offset in the view |
| `RequestResults.PinSucceedsIff` | src/driver/memory.c:988-1150 | succeeds if and only if the creator asks for legal pages not pinned as that range, which a view contains or which lock consecutively in an identity domain, a region can be had when either NOC flag is set and no kernel call fails; the NOC address is at the end of the space the top-down flag names |
| `RequestResults.PinTells` | src/driver/memory.c:1004-1062 | which refusal means what, each before the next |
| `MappingOps.UnpinKeepsInv` | src/driver/memory.c:1212-1255 | UNPIN_PAGES keeps the invariant |
| `MappingOps.UnpinSucceedsIff` | src/driver/memory.c:1234-1252 | it succeeds if and only if the oldest pinning at the address has the size |
| `RequestResults.UnpinTakesOldest` | src/driver/memory.c:1212-1255 | the same with the gate and the arguments, and the pinning that goes is that one |
| `MemoryUndo.FreeUndoesAllocateTlb` | src/driver/memory.c:74-200 | FREE_TLB after ALLOCATE_TLB gives back the whole state |
| `MemoryUndo.ReleaseUndoesSetUp` | src/driver/memory.c:326-391 | tearing down the region just set up restores both tables |
| `MemoryUndo.FreeUndoesAllocateBuf` | src/driver/memory.c:426-635 | FREE_DMA_BUF_EX after ALLOCATE_DMA_BUF gives back the whole state: slot, region, aperture and bytes |
| `MemoryUndo.UnmapUndoesMap` | src/driver/memory.c:814-950 | UNMAP after MAP at a new address gives back the whole state |
| `MemoryUndo.UnpinUndoesPinIff` | src/driver/memory.c:988-1255 | UNPIN_PAGES after PIN_PAGES gives back the whole state if and only if nothing was pinned at that address before; otherwise it is refused |
| `KernelState.Kernel.FreeMemory` | src/driver/memory.c:426-436 | memory goes back only when no enabled aperture reaches it, unless the device is gone, and no view shows it |
| `KernelState.Kernel.AimAperture` | src/driver/memory.c:347-366 | an aperture is enabled only onto memory that is held |
| `KernelState.Kernel.MapView` | src/driver/memory.c:872-876 | a view is made only of memory that is held |
| `KernelState.Kernel.CloseHandle` | src/driver/device.c:253-300 | a handle goes only when nothing is held for it and no view of it is left |
| `KernelState.PinDropped` | src/driver/memory.c:1153-1166 | once a pinning's region is torn down its pages may be unlocked, and what is held is then what the remaining objects account for |
| `KernelState.BufDropped` | src/driver/memory.c:426-436 | once an unreferenced buffer's region is torn down its memory may be deleted, with the same account afterwards |
| `KernelState.BufAdded` | src/driver/memory.c:502-544 | a buffer obtained and aimed at accounts for exactly the new memory and aperture |
| `KernelState.PinListed` | src/driver/memory.c:1075-1129 | so does a pinning, with or without locked pages |
| `KernelState.EmptySlotIsFree` | src/driver/memory.c:474-500 | for an empty slot nothing is held, nothing reaches it and no view shows it |
| `KernelState.StepMatches` | src/driver/memory.c:474-544 | a handler that accounts for its own handle leaves every other handle's account right |
| `KernelState.CloseMatches` | src/driver/memory.c:1264-1318 | after cleanup the account of every other handle is right and the closed one's is gone |
| `KernelState.ExitHoldsNothing` | src/driver/driver.c:77-89 | after a process exits no page of it is locked and no view of its handles is left |
| `KernelState.AperturesReachHeldMemory` | src/driver/memory.c:426-436 | on every healthy attached device each enabled aperture reaches memory that is held, that of the one live object its region belongs to |
| `KernelState.ViewsShowHeldMemory` | src/driver/memory.c:597-614 | and every buffer view shows memory that is held |
| `TwoStep.UnpinHalves` | src/driver/memory.c:1233-1253 | delisting and then destroying is UNPIN_PAGES |
| `TwoStep.DelistPinKeeps` | src/driver/memory.c:1245-1250 | delisting a pinning keeps the account of what is held, over listed and delisted objects together |
| `TwoStep.DestroyPinKeeps` | src/driver/memory.c:1153-1166 | so does destroying a delisted one, and its pages may be unlocked once its region is gone |
| `TwoStep.DelistViewKeeps` | src/driver/memory.c:937-943 | so does delisting a view |
| `TwoStep.DestroyViewKeeps` | src/driver/memory.c:948-949 | and destroying it |
| `TwoStep.FreeIsSafeIff` | src/driver/memory.c:597-627 | when the busy walks find nothing, deleting the buffer is safe if and only if no delisted, undestroyed view shows it and no such pinning's aperture reaches it |
| `TwoStep.FreeRacesUnpin` | src/driver/memory.c:1243-1253 | a free of a buffer one pinning refers to is refused before the unpin and safe after it; between the halves it succeeds and is not safe |
| `TwoStep.FreedWhileTargeted` | src/driver/memory.c:1243-1253 | then the NOC range of the delisted pinning is still sent to the freed buffer's addresses |
| `TwoStep.FreeRacesUnmap` | src/driver/memory.c:937-949 | the same between the halves of UNMAP: the view is still there when the buffer goes |
| `TlbRaces.AllocateTlbHalves` | src/driver/memory.c:107-148 | the claim is a delivered ALLOCATE_TLB, claim and rollback together an undelivered one |
| `TlbRaces.RollbackIsSafeIff` | src/driver/memory.c:141-146 | whatever ran since the claim, the rollback keeps the invariant and every other handle's windows if and only if the window is free or still the handle's and the handle has no view of it |
| `TlbRaces.RollbackRacesMap` | src/driver/memory.c:141-146 | a MAP by the handle in between succeeds, and the rollback then breaks the invariant: a view of a window nobody owns |
| `TlbRaces.RollbackRacesFree` | src/driver/memory.c:141-146 | a FREE_TLB in between succeeds, and after another handle's ALLOCATE_TLB the rollback takes the window from that handle |
| `TlbRaces.OwnerAfterStep` | src/driver/memory.c:107-117 | a handle has a window after a step if and only if the step gave it, or it had it and the step did not take it |
| `TlbRaces.OwnsIff` | src/driver/memory.c:107-200 | in every reachable state a window's owner is the handle that was given it and has neither freed it nor closed since |
| `TlbRaces.LateWriteIsOwnersIff` | src/driver/memory.c:222-230 | between the owner check and the register write of CONFIGURE_TLB the window stays the handle's if and only if it is not given up in between, or given again since |
| `TlbRaces.LateWrite` | src/driver/memory.c:222-230 | the failing interleaving on the registers: the new owner's window decodes to the old owner's request |
| `Reached.UnpinRaceIsReached` | src/driver/memory.c:988-1129 | open, allocate, map, pin, unmap: one pinning alone refers to the buffer, where `FreeRacesUnpin` starts |
| `Reached.UnmapRaceIsReached` | src/driver/memory.c:814-906 | open, allocate, map: one view alone refers to the buffer, where `FreeRacesUnmap` starts |
| `Reached.UnpinCanMissItsPinning` | src/driver/memory.c:1234-1252 | two PIN_PAGES at one address after which the second pinning exists and its UNPIN_PAGES is refused |
| `Reached.RollbackMapRaceIsReached` | src/driver/memory.c:141-146 | a run to a state where `RollbackRacesMap` starts |
| `Reached.WindowRacesAreReached` | src/driver/memory.c:141-230 | a run in which a window moves from one handle to another between the halves of the first handle's ALLOCATE_TLB or CONFIGURE_TLB |
| `LifecycleOps.OpenKeepsInv` | src/driver/device.c:206-249 | opening keeps the invariant |
| `RequestResults.OpenedIsUpToDate` | src/driver/device.c:206-249 | a newly opened handle of an attached device is current in whatever generation the device is, owns nothing, and no other handle changes |
| `LifecycleOps.WalkFindsEverySlot` | src/driver/memory.c:1264-1318 | the slots a handle owns are exactly those its objects name |
| `LifecycleOps.CloseKeepsInv` | src/driver/memory.c:1264-1318 | cleanup keeps the invariant |
| `LifecycleOps.CloseFreesExactlyItsOwn` | src/driver/memory.c:1264-1318 | afterwards no slot, window, buffer, pinning or mapping belongs to the closed handle, and every other handle's are unchanged |
| `LifecycleOps.ClosedIsUnreachable` | src/driver/memory.c:1287-1303 | no NOC address of a closed handle is translated |
| `LifecycleOps.ExitKeepsInv` | src/driver/driver.c:55-92 | the process-exit step keeps the invariant |
| `LifecycleOps.ExitReleasesProcessState` | src/driver/memory.c:1174-1208 | the process's handles lose mappings and pinnings and keep buffers, their slots and windows |
| `LifecycleOps.ExitSparesOthers` | src/driver/driver.c:79-87 | other processes' handles are untouched |
| `LifecycleOps.DmaViews` | src/driver/reset.c:378-391 | the zap keeps exactly the buffer views |
| `LifecycleOps.OnlyResetterCurrent` | src/driver/reset.c:402-412 | a bump leaves exactly the resetter current |
| `LifecycleOps.ZapSparesBufferViews` | src/driver/reset.c:361-398 | no device view survives the zap, every buffer view does |
| `LifecycleOps.RemovalKeepsInv` | src/driver/device.c:764-785 | surprise removal keeps the invariant |
| `LifecycleOps.ResetKeepsInv` | src/driver/reset.c:455-568 | every reset flavour keeps the invariant |
| `LifecycleOps.ResetBumpsIff` | src/driver/reset.c:428-552 | a reset starts a generation if and only if its gate is open and its flavour does (3 and 5 always, 2 and 4 only simulated); then the resetter alone is current and no device view is left; otherwise all generations stay |
| `ResetResults.ResetSetsFlagIff` | src/driver/reset.c:503-533 | after an accepted reset re-initialisation is due if and only if its flavour is 3 or 5, or 4 on the simulated device, or it was due and the flavour is not 6 |
| `ResetResults.ResetReports` | src/driver/reset.c:455-568 | result 0 per flavour, by what the hardware answered |
| `ResetResults.RefusedResetChangesNothing` | src/driver/reset.c:455-568 | a stale handle, a device that is gone or a flavour above 6 changes nothing |
| `ResetResults.ResetZapsIff` | src/driver/reset.c:361-398 | flavours 1, 3 and 5, and 2 and 4 on the simulated device, leave no device view on any handle; the others change no handle; none touches buffers, pinnings, windows or buffer views |
| `ResetResults.RemovalZaps` | src/driver/device.c:764-785 | surprise removal takes the device and every device view and nothing else |
| `ResetResults.FlagAfterStep` | src/driver/reset.c:503-533 | no other event sets or clears the flag |
| `ResetResults.RefusedIff` | src/driver/ioctl.c:232-257 | over whole runs: a current handle's non-exempt request is refused if and only if the last reset that set or cleared the flag set it, or none did and the device started that way |
| `ResetResults.GlobalsAfterStep` | src/driver/reset.c:402-412 | generation, removal and dead processes after any event, from the event alone |
| `Isolation.HandlesAreIsolated` | src/driver/ioctl.c:371-497 | whatever a handle asks for, its opening and its closing leave every other handle's file, regions, translations and windows as they were |
| `Isolation.RequestSpares` | src/driver/memory.c:247-391 | a request changes tables only where they are free or its own handle's |
| `MemoryRuns.StepKeepsInv` | src/driver/ioctl.c:371-497 | every request, callback, reset and exit keeps the invariant |
| `MemoryRuns.AllRuns` | src/driver/ioctl.c:371-571 | the invariant holds in every reachable state |
| `MemoryRuns.RunsNeverLoseShape` | src/driver/ioctl.c:371-571 | what a step asks of its state's shape holds in every reachable state, so a request is never blocked by it |
| `MemoryRuns.EveryApertureHasItsObject` | src/driver/memory.c:317-320 | in every reachable attached state each enabled aperture belongs to exactly one live buffer or pinning |
| `MemoryRuns.BufStays` | src/driver/memory.c:575-635 | a buffer leaves its slot only through its own handle's free or close |
| `MemoryRuns.BufferTranslationStable` | src/driver/memory.c:502-544 | in the regions as the driver last programmed them, what ALLOCATE_DMA_BUF reported translates to the reported address in every later state until a free of it succeeds or its handle closes, while attached |
| `MemoryRuns.PinStays` | src/driver/memory.c:1152-1255 | a pinning leaves only through its own unpin, close or process exit |
| `MemoryRuns.PinTranslationStable` | src/driver/memory.c:1107-1129 | the same stability of the driver's regions for PIN_PAGES with either NOC flag: every byte of the range goes to its own byte of the containing view's buffer or of the locked frames, until an unpin of it succeeds, its handle closes or its process exits |
| `HardwareRuns.HardwareWithin` | src/driver/blackhole.c:142-179 | with all regions disabled at the start, every region of the hardware is what the driver last wrote to it, or cleared |
| `HardwareRuns.RegionHoldsIff` | src/driver/reset.c:513-525 | a region goes on holding its record exactly until a reset clears it, and is not written again |
| `HardwareRuns.BufferTranslatedIff` | src/driver/memory.c:502-544 | what ALLOCATE_DMA_BUF reported holds of the hardware in a later state, up to its free or close, if and only if no reset since cleared the regions |
| `HardwareRuns.PinTranslatedIff` | src/driver/memory.c:1107-1129 | the same for PIN_PAGES, byte by byte, up to its unpin, close or process exit |
| `MemoryRuns.StaleForever` | src/driver/ioctl.c:238-245 | a stale or detached handle never becomes current and has no device view in any later state |
| `MemoryRuns.BufferViewSurvives` | src/driver/reset.c:384-390 | one step takes a buffer view away only by unmap, close or process exit |
| `MemoryRuns.BufferViewSurvivesRun` | src/driver/reset.c:384-390 | and so over any stretch of a run, resets and removal included |
| `MemoryRuns.MappingsAreOfTheLiving` | src/driver/ioctl.c:538-546 | every mapping's process is its handle's creator and is alive |
| `MemoryRuns.NothingLeftAfterExit` | src/driver/driver.c:55-92 | after a process exits none of its handles has a mapping or pinning in any later state |
| `MemoryRuns.ReferencesAreLive` | src/driver/memory.c:597-627 | references of mappings and pinnings are live slots of the same handle; with whole requests as steps, mapped windows are owned |
| `FileContexts.FileContext.IsWindowMapped` | src/driver/memory.c:180-189 | the busy walk of FREE_TLB |
| `FileContexts.FileContext.IsReferenced` | src/driver/memory.c:606-623 | the two busy walks of FREE_DMA_BUF_EX |
| `FileContexts.FileContext.IsPinned` | src/driver/memory.c:1033-1041 | the duplicate walk of PIN_PAGES |
| `FileContexts.FileContext.FindDmaBufView` | src/driver/memory.c:958-984 | the loop computes the first containing view |
| `FileContexts.FileContext.TakeMapping` | src/driver/memory.c:932-943 | unlinks the first mapping at the address |
| `FileContexts.FileContext.TakePinning` | src/driver/memory.c:1233-1248 | the first pinning at the address decides, whatever its size |
| `FileContexts.FileContext.ZapMappings` | src/driver/reset.c:377-391 | removal during the walk leaves exactly the buffer views, in order |
| `MemoryDevice.Device.AllocateTlb` | src/driver/memory.c:74-148 | first free window of the exact-size pool with its tokens, or no change, claim and rollback as one step |
| `MemoryDevice.Device.FreeTlb` | src/driver/memory.c:152-200 | freed only by the owner and only when unmapped |
| `MemoryDevice.Device.ConfigureTlb` | src/driver/memory.c:204-239 | per atomic handler: status by the first failing check; the owner's window decodes to the request, no other window's registers change, none on a refusal |
| `MemoryDevice.Device.AllocateDmaBuf` | src/driver/memory.c:440-568 | checks in order, then reservation, memory, region and record, or everything undone, the aperture before the memory; what is held follows the record |
| `MemoryDevice.Device.FreeDmaBufEx` | src/driver/memory.c:575-635 | only when unreferenced: the aperture, then the memory, then the bytes; what is held follows the record |
| `MemoryDevice.Device.Map` | src/driver/memory.c:814-906 | one view made and one mapping appended, or no change |
| `MemoryDevice.Device.Unmap` | src/driver/memory.c:910-950 | the first mapping at the address removed and its view unmapped, or no change |
| `MemoryDevice.Device.LockRange` | src/driver/memory.c:1078-1104 | pages stay locked exactly on consecutive frames, with the first frame's address; otherwise they are unlocked again |
| `MemoryDevice.Device.PinPages` | src/driver/memory.c:988-1150 | backed or direct target, locked pages, region and record, or everything undone, the aperture before the pages |
| `MemoryDevice.Device.UnpinPages` | src/driver/memory.c:1212-1255 | pinning, then region, then pages released, or no change |
| `MemoryDevice.Device.FileCleanup` | src/driver/device.c:253-300 | the walk over the handle's own lists ends in the state stated by owner, with nothing held for the handle |
| `MemoryDevice.Device.DmaBufDestroy` | src/driver/memory.c:426-436 | the buffer's memory is freed after its region is torn down: its deletion is not allowed before |
| `MemoryDevice.Device.DestroyPinning` | src/driver/memory.c:1153-1166 | likewise for a pinning's pages |
| `MemoryDevice.Device.DestroyLists` | src/driver/memory.c:1276-1292 | views, then pinnings, each with its region before its pages; the handle's account stays right |
| `MemoryDevice.Device.DestroyBuffers` | src/driver/memory.c:1294-1303 | only when no view and no pinning of the handle is left; afterwards nothing is held for it |
| `MemoryDevice.Device.ProcessExit` | src/driver/driver.c:77-89 | every handle of the process emptied, on one device, and nothing but buffers held for the process |
| `MemoryDevice.Device.ZapMappings` | src/driver/reset.c:363-398 | every handle's device views removed |
| `MemoryDevice.Device.BumpResetGen` | src/driver/reset.c:402-412 | generation plus one, latched by the resetter |
| `MemoryDevice.Device.SurpriseRemoval` | src/driver/device.c:764-776 | detached, no device view left |
| `MemoryDevice.Device.ResetDevice` | src/driver/reset.c:455-568 | each flavour's state change and reported result |
| `MemoryDispatch.RequestKeepsHealth` | src/driver/ioctl.c:371-497 | a request that is a step and accounts for its own handle keeps the invariant and the account of the whole device |
| `MemoryDispatch.FileCreate` | src/driver/device.c:206-249 | opening a handle of a healthy device is a step of the runs and leaves it healthy |
| `MemoryDispatch.FileCleanup` | src/driver/device.c:253-300 | closing one of a healthy device is a step of the runs and leaves it healthy |
| `MemoryDispatch.ProcessExit` | src/driver/driver.c:55-92 | a process exit of a healthy device is a step of the runs and leaves it healthy |
| `MemoryDispatch.SurpriseRemoval` | src/driver/device.c:764-785 | surprise removal of a healthy device is a step of the runs and leaves it healthy |
| `MemoryDispatch.ResetDevice` | src/driver/reset.c:455-568 | RESET_DEVICE of a healthy device is a step of the runs and leaves it healthy |
| `MemoryDispatch.AllocateTlb` | src/driver/memory.c:74-148 | ALLOCATE_TLB of a healthy device is a step of the runs and leaves it healthy |
| `MemoryDispatch.FreeTlb` | src/driver/memory.c:152-200 | FREE_TLB of a healthy device is a step of the runs and leaves it healthy |
| `MemoryDispatch.AllocateDmaBuf` | src/driver/memory.c:440-568 | ALLOCATE_DMA_BUF of a healthy device is a step of the runs and leaves it healthy |
| `MemoryDispatch.FreeDmaBufEx` | src/driver/memory.c:575-635 | FREE_DMA_BUF_EX of a healthy device is a step of the runs and leaves it healthy |
| `MemoryDispatch.Map` | src/driver/memory.c:814-906 | MAP of a healthy device is a step of the runs and leaves it healthy |
| `MemoryDispatch.Unmap` | src/driver/memory.c:910-950 | UNMAP of a healthy device is a step of the runs and leaves it healthy |
| `MemoryDispatch.PinPages` | src/driver/memory.c:988-1150 | PIN_PAGES of a healthy device is a step of the runs and leaves it healthy |
| `MemoryDispatch.UnpinPages` | src/driver/memory.c:1212-1255 | UNPIN_PAGES of a healthy device is a step of the runs and leaves it healthy |
| `DriverList.Driver.Unregister` | src/driver/driver.c:34-44 | the device and nothing else leaves the list |
| `DriverList.Driver.ProcessNotify` | src/driver/driver.c:55-92 | every listed device takes its process-exit step, stays healthy and holds nothing for the process but its handles' buffers |
| `LockSpec.OldestWins` | src/driver/locks.c:121-139 | a free lock with a current waiter in the batch has a winner no younger than it |
| `LockSpec.OneWinner` | src/driver/locks.c:131-132 | one winner per lock and pass |
| `LockSpec.WakeKeepsExclusive` | src/driver/locks.c:107-141 | a wake pass keeps mutual exclusion whatever is queued |
| `LockSpec.WakeLosesNothingIff` | src/driver/locks.c:95-141 | no waiter is left behind if and only if everyone beyond the cap stays blocked; always with at most 64 queued |
| `LockSpec.WakeupLostBeyondCap` | src/driver/locks.c:103-119 | a sound state with 65 queued and no lost wakeup, and one release that loses the 65th's |
| `LockSpec.GrantGoesToOldest` | src/driver/locks.c:121-132 | a released lock goes to the oldest valid waiter and to nobody else |
| `LockSpec.LosersKeepOrder` | src/driver/locks.c:133-138 | losers keep their relative order |
| `LockSpec.BumpKeepsLocksIff` | src/driver/reset.c:402-420 | a bump grants nothing and changes no bitmap if and only if none of the resetter's own drained requests wants a free lock; only the resetter's waiters stay queued |
| `LockSpec.BumpGrantsNothing` | src/driver/reset.c:402-420 | so with no wakeup lost before, a bump grants and frees nothing |
| `LockSpec.BumpCanGrant` | src/driver/reset.c:402-420 | a sound state, a release that loses a wakeup and a reset that then grants the lock |
| `LockSpec.ClosingHandleHolds` | src/driver/locks.c:146-159 | the closing handle holds nothing if and only if none of its own requests wins the wake it triggers |
| `LockSpec.ClosingHandleCanRegainItsLock` | src/driver/locks.c:146-159 | a run of four events after which the closed handle holds its lock again |
| `LockSpec.StepKeepsExclusive` | src/driver/locks.c:49-65 | every transition keeps the bitmaps disjoint with the device bitmap as their union |
| `LockSpec.StepKeepsNoLostWakeup` | src/driver/locks.c:198-241 | no transition loses a wakeup while at most 64 are queued |
| `LockSpec.AllRuns` | src/driver/locks.c:165-254 | mutual exclusion in every reachable state, and no lost wakeup along runs within the cap |
| `LockSpec.StaleForever` | src/driver/locks.c:128-130 | a stale handle stays stale and its bitmap only shrinks, over whole runs |
| `LockSpec.GoneForever` | src/driver/locks.c:146-159 | a closed handle with nothing queued holds nothing in any later state |
| `LockSpec.Rotation` | src/driver/locks.c:99-140 | the waiter at position k is retried by pass k/64 |
| `LockReplies.AcquireReply` | src/driver/locks.c:195 | 1 if and only if nobody held the lock, which the caller then holds; 0 if and only if somebody does, with nothing changed |
| `LockReplies.AcquireBlockingReply` | src/driver/locks.c:220-241 | 1 likewise; pended if and only if somebody holds it and the kernel takes the request, exactly as the last of the queue |
| `LockReplies.ReleaseReply` | src/driver/locks.c:198-209 | 1 if and only if the caller held it, and then it is free or a waiter's; 0 changes nothing |
| `LockReplies.TestReply` | src/driver/locks.c:211-218 | bit 0 is the caller's, bit 1 anybody's, nothing changes |
| `LockReplies.RefusedCtl` | src/driver/locks.c:165-190 | stale, gone, an index past 63 or an unknown operation changes nothing |
| `LockReplies.HiddenAnswer` | src/driver/locks.c:165-254 | a reply that does not fit hides the answer, not the effect |
| `LockReplies.WakeSettles` | src/driver/locks.c:67-141 | how each drained request ends: gone if and only if its handle is stale; granted only a free lock, then its handle's; refused or queued again only while somebody holds the lock |
| `LockReplies.WakeGrantsOnce` | src/driver/locks.c:121-132 | a lock changes hands in a pass if and only if one drained request was told so, and no second one is |
| `LockReplies.NoWaiterLeftBehind` | src/driver/locks.c:95-141 | with at most 64 waiters, after a release, close, reset or removal whoever still waits is current and waits for a held lock; after a removal nobody waits |
| `LockReplies.HoldStays` | src/driver/locks.c:49-65 | a held lock stays held until its holder releases it or closes |
| `LockReplies.ToldHasIt` | src/driver/locks.c:121-132 | whoever is told that it has a lock has it |
| `LockReplies.ToldOnlyIfFree` | src/driver/locks.c:49-65 | nobody is told so while another handle holds the lock and is not just giving it back |
| `LockReplies.ToldTwice` | src/driver/locks.c:165-254 | over whole runs: between two events that tell handles they have one lock, the first handle gave it back |
| `LockManager.WinsWhenRetried` | src/driver/locks.c:121-132 | the declarative winner is the one the retry loop finds |
| `LockManager.RetryStep` | src/driver/locks.c:121-140 | one loop iteration is one step of the wake pass |
| `LockManager.Locks.TryAcquire` | src/driver/locks.c:49-65 | takes a free lock in both bitmaps, or changes nothing |
| `LockManager.Locks.WakeWaiters` | src/driver/locks.c:107-141 | the drain and retry loops are the wake pass, with the completion of every drained request |
| `LockManager.Locks.ReleaseAll` | src/driver/locks.c:146-159 | clears both bitmaps, then wakes |
| `LockManager.Locks.Ctl` | src/driver/locks.c:165-254 | every LOCK_CTL operation, its reply and its errors |
| `ArcSpec.OccupancyExactIff` | src/driver/blackhole.c:405 | the 32-bit remainder is the occupancy for all pointers if and only if 2N divides 2^32 |
| `ArcSpec.PowersOfTwoWrapCleanly` | src/driver/blackhole.c:540 | powers of two do, 3 does not |
| `ArcSpec.DriverOccupancyIsTrue` | src/driver/blackhole.c:466 | the driver's occupancy is the true one |
| `ArcSpec.LayoutDisjoint` | src/driver/blackhole.c:383-442 | header, request slots and response slots never overlap |
| `ArcSpec.FwTakeKeeps` | src/driver/blackhole.c:398-413 | firmware taking a request keeps the ring invariant |
| `ArcSpec.FwWriteWordKeeps` | src/driver/blackhole.c:458-474 | firmware writing an unpublished response word disturbs neither ring |
| `ArcSpec.FwPublishKeeps` | src/driver/blackhole.c:458-474 | publishing a response appends it |
| `ArcSpec.PushWordKeeps` | src/driver/blackhole.c:415-424 | writing an unpublished request word overwrites nothing unconsumed |
| `ArcSpec.PublishAppends` | src/driver/blackhole.c:426-429 | publishing appends exactly the message to the FIFO |
| `ArcSpec.PopRemovesOldest` | src/driver/blackhole.c:490-491 | popping removes the oldest response |
| `ArcSpec.FirmwareSeesWholeMessages` | src/driver/blackhole.c:415-429 | every slot firmware may read holds a whole message, and the occupancy is at most N |
| `ArcSpec.AddressesFit` | src/driver/blackhole.c:417-442 | slot addresses do not wrap in 32 bits |
| `ArcSpec.LagCountsGiveUps` | src/driver/blackhole.c:503-564 | along any run of sends, unsent ones included, the distance between sends and pops is the number of give-ups so far; it is zero if and only if both rings are empty between sends |
| `ArcSpec.ReplyMatchesIff` | src/driver/blackhole.c:545-556 | a send returns the reply to its own request if and only if no earlier send of the run gave up |
| `ArcQueue.ArcQueue.CsmRead32` | src/driver/blackhole.c:320-334 | reads inside the CSM range only, after any firmware steps |
| `ArcQueue.ArcQueue.CsmWrite32` | src/driver/blackhole.c:336-349 | writes inside the CSM range only, after any firmware steps |
| `ArcQueue.ArcQueue.ArcMsgPush` | src/driver/blackhole.c:375-430 | appends the message, or nothing; with the queue in the CSM and room at the start it always appends, and otherwise gives up only on a ring it last saw full |
| `ArcQueue.ArcQueue.ArcMsgPop` | src/driver/blackhole.c:433-492 | returns the oldest response, or nothing; with the queue in the CSM it always does when one was waiting, and otherwise gives up only on a ring it last saw empty |
| `ArcQueue.ArcQueue.SendArcMessage` | src/driver/blackhole.c:503-564 | ready gate, queue discovery, zero-entries check and one transaction; its outcome is done, given up or not sent; from empty rings in the CSM a ready device always gets the request, the send is done when the response is published before the pop begins, and then returns the reply to this request |
| `Power.EffectiveBit` | src/driver/power.c:72-75 | a handle asks for a flag it sets or does not specify |
| `Power.FlagsMean` | src/driver/power.c:54-76 | an aggregate flag is on if and only if some current contributor asks for it |
| `Power.SettingMeans` | src/driver/power.c:78-85 | an aggregate setting is the largest declared by current contributors |
| `Power.CountMeans` | src/driver/power.c:66-70 | the count in the message is the largest declared by current contributors |
| `Power.FlagBitIsBit` | src/driver/power.c:72-76 | flag b is bit b |
| `Power.OrderIndependent` | src/driver/power.c:54-86 | the aggregate does not depend on the order of the list |
| `Power.Monotone` | src/driver/power.c:54-86 | adding handles only adds flags and raises settings |
| `Power.HeaderUnpacks` | src/driver/power.c:108-110 | type, validity and flags are recovered from the header |
| `Power.HeaderNibbles` | src/driver/power.c:108-110 | bits 8 to 11 of the header are 15, bits 12 to 15 the count |
| `Power.PayloadUnpacks` | src/driver/power.c:111-114 | all 14 settings are recovered from 7 words |
| `Power.PowerHandle.constructor` | src/driver/power.c:21-31 | a legacy handle contributes flags 1 to 14, that is every flag but MAX_AI_CLK, and no setting |
| `Power.PowerHandle.SetPowerState` | src/driver/power.c:121-161 | accepted if and only if the size is 40, flags and reserved are 0 and at most 14 settings are declared; replaces the contribution or nothing |
| `Power.PowerDevice.Fold` | src/driver/power.c:54-86 | the loop computes the aggregate |
| `Power.PowerDevice.Aggregate` | src/driver/power.c:37-117 | what is stored and sent, in bits of the message: the flags that current contributors ask for, per setting and for the count the largest declared |
| `QuotaSpec.RefusedIff` | src/driver/memory.c:404-411 | refused exactly when live, in-flight and requested bytes exceed the limit |
| `QuotaSpec.StepKeepsInv` | src/driver/memory.c:398-421 | each atomic step keeps counter = live + to be taken back |
| `QuotaSpec.AllRuns` | src/driver/memory.c:398-421 | along every interleaving accepted bytes stay within the limit and the counter within 64 bits |
| `QuotaSpec.RefusalIsExactWhenAlone` | src/driver/memory.c:404-411 | with nothing in flight a refusal means it does not fit |
| `QuotaSpec.SpuriousRefusal` | src/driver/memory.c:404-411 | two reservations of whole MiB lead to a state in which a third that fits is refused |
| `Quota.DmaAccount.Reserve` | src/driver/memory.c:398-412 | accepted bytes become live; a refused add is taken back with others running in between |
| `Quota.DmaAccount.Release` | src/driver/memory.c:414-421 | live bytes given back |
| `LockOrder.DeadlockFree` | src/driver/reset.c:28-51 | any threads that keep the rank order: some unfinished thread can step |
| `LockOrder.NestedIsBalanced` | src/driver/memory.c:171-198 | nested acquisition follows the order and releases everything |
| `LockOrder.HandlersNested` | src/driver/driver.c:53-91 | every handler nests its locks along the order |
| `LockOrder.DriverDeadlockFree` | src/driver/ioctl.c:394-492 | any number of threads running any handlers on any devices never deadlock |

## Left out

- Windows kernel and KMDF internals (MDLs, page locking, process attach, queues, cancellation callbacks): their results are parameters; cancellation of a pended request is a transition of the lock model.
- What a chip reset does to the hardware registers: in the runs the iATU records stay, as the driver does not program them again; `HardwareRuns` lets any reset clear them.
- PCI configuration save and restore, capability walk, MPS, PLDR work item, firmware triggers: one outcome flag per reset.
- D0 entry and exit, BAR mapping, registry reading, tracing, telemetry values, GET_DEVICE_INFO, GET_DRIVER_INFO, QUERY_MAPPINGS, SET_NOC_CLEANUP, debug requests: no property beyond one body; all but D0 and debug are in the lock order.
- UNMAP and UNPIN_PAGES: one step each in the runs, although the driver destroys after dropping the file lock; `TwoStep` has their halves, with FREE_DMA_BUF_EX in between but no new objects of the handle.
- `MemoryOps.AllocateTlbKeepsInv`: claim and rollback of ALLOCATE_TLB are one step, although the driver lets go of TlbLock in between; the halves are in `TlbRaces`.
- `MemoryDevice.Device.AllocateTlb`: the same, as is `MemoryDispatch.AllocateTlb`.
- `MemoryRuns.ReferencesAreLive`: its mapped-window half is about whole requests; a rollback beside a MAP of the same handle breaks it (`TlbRaces.RollbackRacesMap`).
- `MemoryDevice.Device.ConfigureTlb`: check and register write are one step; the halves are in `TlbRaces`.
- A repeated PrepareHardware (`src/driver/device.c:592-593` clears the window owners while handles may be open): no event of the runs.
- Requests of a handle still in flight when its cleanup runs: not in the memory model; the lock model has them as queued requests of a closed handle.
- Wall-clock timeouts: a bounded number of polls, then a give-up.
- Direct access to window registers through an open BAR mapping: outside the handlers by design.
- `MemoryDevice.Device.Reserve`: one step here; its interleaving is `Quota.DmaAccount.Reserve`.
- `MemoryDevice.Device.BumpResetGen`: does not wake lock waiters; that half is `LockManager.Locks.BumpResetGen`.
- `ArcQueue.ArcQueue.SendArcMessage`: every send discovers the same queue, the one the object stands for, with 2N dividing 2^32; firmware that moves or resizes its queue starts another one, about which nothing is said.
- Memory barriers: accesses of one thread take effect in program order.
