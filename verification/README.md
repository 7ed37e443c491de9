# GLM OS: verified models of its core

Dafny models of the parts of the kernel and of its ring-3 runtime that are state machines over plain data, with proofs
of what they promise over whole runs. Where the code changes state in place the model is a class over arrays and maps,
and each method is proved to compute a function whose properties are proved beside it.

- **Copy-on-write address spaces.** `CowProtocol` models fork, store, fault, release, unmap and teardown as small
  interleaved steps of many CPUs; `CowInvariant`, `CowFaultSteps`, `CowForkSteps` keep its invariant, `CowRefinement`
  and `CowTheorems` compare it with a kernel that copies every page at fork. `Frames`, `PageTableSpec`, `ForkSpec`,
  `TeardownSpec` and `Vmm` model the same operations as they run alone, on real four-level tables in frames; `CowAlone`
  proves that fork, copy-on-write faults and teardown there are runs of the protocol, and `UserHeap` models `sbrk` on top.
- **FAT32.** `FatSpec` (table, chains, data, mounting), `FatVolume` (the driver below directories), `FatDirSpec`
  (slots and short names), `FatTreeSpec`, `FatTreeSteps`, `FatTreeOps` (the tree behind the sectors) and `FatTree` (the
  path operations). The on-disk format is that of Microsoft's "FAT32 File System Specification", sections "FAT Data
  Structure" and "FAT Directory Structure".
- **TCP data phase.** `TcpSpec` and `TcpProtocol` (two endpoints over a network that loses, duplicates and reorders),
  `TcpTheorems`, and `Tcp` with `Rings` (the socket over its byte rings). Sequence numbers are those of section 3.4 of
  RFC 9293.
- **SMP scheduler.** `SchedSpec` (one interrupt as a function), `SchedInvariant`, `SchedParts`, `SchedTheorems`,
  `SchedFairness`, `SchedLimits`, and `Sched` (module `Scheduler`: the loops over the task table).
- **IPC channels.** `IpcSpec` (parking, waking and conservation over runs) and `Ipc` (the rings).
- **The two free-list allocators.** `FreeBlocks` (blocks that tile an arena, splitting and merging) and `Words` serve
  both. User malloc: `MallocSpec`, `MallocLinks` (headers and the list in memory), `Malloc`. Kernel heap: `HeapSpec`
  (alignment, payloads, what the bytes of memory record) and `KernelHeap`.
- **Arithmetic cores.** `Checksum` (module `Checksums`) and `Packets` (section 1 of RFC 1071, section 3.1 of RFC 791,
  section 3.1 of RFC 9293), `Calendar`.

`dafny verify dfyconfig.toml` checks everything.

## Assumptions

- Scheduler: the interrupt handler and the switching code of one CPU are one atomic step; the code takes its lock once
  in each. Resident idle tasks only yield.
- Copy-on-write: at most one kernel operation at a time (fault, fork, map, unmap, release, teardown) is under way in an
  address space. The operations of different spaces interleave freely, and so do the stores of every running thread of
  every space, beside an operation of its own space too.
- FAT32: every cluster the table has an entry for lies on the device, and a file written has at most 1,000,000
  clusters, the step guard; directories and files of the path operations have one sector per cluster (the volume layer
  is general); FAT areas do not cover sector 0; names are given upper-cased and fit 8.3, stored names are followed by spaces only; there
  are no long-name slots; volume labels are ASCII; a write target is not a directory; a directory about to grow is
  shorter than the 1,000,000-step guard.
- TCP: both sides start established, no FIN, RST or close happens, and a run stays below 2^32.
- Integers are unbounded except where the width matters: FAT entries, header words, TCP sequence numbers and sums.

## Findings

Properties that the code does not have, each with the exact condition under which it does.

- `TcpTheorems.SendSafeIffFits`, `LongSendOverruns`: `send` keeps only what fits the TX ring but transmits all of its
  data, so the stream is sound exactly when the data fits.
- `TcpSpec.AcceptsOnlyFullAck`, `TcpTheorems.TearsIff`, `RunStuckIff`: only an acknowledgement of everything is
  accepted, so the stream is stuck for good if and only if the peer is past what is acknowledged and stopped inside the
  data of one send. A send taken in part gets it there (`PartOfSendTears`), and so does a retransmission, which is cut
  every 1400 bytes wherever the sends ended (`RetransmissionTearsIff`): two lost sends of 1000 bytes and one
  retransmission into an empty ring are enough (`LostRoundTears`). The opening comment of src/net/tcp.rs says that the
  rest is retransmitted; the models follow the code.
- `TcpSpec.PanicsIffStraddling`: with overflow checks on, as the release profile has them, the acknowledgement of a
  window that straddles 2^32 panics.
- `IpcSpec.KeepsWakesIff`, `FailedReceivesDeadlock`: a `recv` whose copy-out fails has emptied the ring without waking
  the sender; nothing else can lose a wake-up.
- `SchedLimits.KillSparesHomesIff`, `EndedRunsIffNobodyElse`, `KilledIdleRevivesTheEnded`: `kill` does not spare the
  resident idle tasks; without its idle task a CPU puts an ended task back.
- `SchedLimits.MarkedEndsIffNoTimer`: a marked thread dies at its next interrupt only if that is not the timer, which
  takes it off the CPU before the mark is looked at.
- `Calendar.HourReadIff`: in BCD 12-hour mode the afternoon flag is decoded as a digit, so the clock is refused from
  noon on.
- `FatTree.TargetIsPathIff`: a new file whose name reads like a volume label in its directory is stored under an alias;
  `mkdir` refuses such a name although nothing has it.
- `FatVolume.ReadBackIff`: a chain longer than the step guard reads back cut.
- `FatTree.Filesystem.WriteFile`: when the data takes the last free clusters and a new name finds its directory full,
  and only then (`Strands`), the write is refused and the stored chain stays allocated and belongs to nobody.
- `HeapSpec.StaysCoalescedIff`, `AllFreeYetTwo`: a block of the kernel heap freed between two free ones joins only the
  lower, so memory that is all free may refuse what it could hold.
- `KernelHeap.Heap.Release`: `free` panics as corruption exactly when the free list is longer than 4096 blocks before or
  after it.
- `Vmm.GuardGap`: the address guard of `map` leaves a gap between the lower half and the kernel half.

## Model

| member | source | states |
|---|---|---|
| `CowTheorems.CowRefinesEagerCopy` | src/mem/vmm.rs:242-324 | After every interleaved run from boot, what each live space reads and may write is what it would be had every fork copied all pages |
| `CowRefinement.RunRefines` | src/mem/vmm.rs:568-612 | The same from any state that satisfies the invariant, step by step, so also in the middle of forks, faults and teardowns |
| `CowTheorems.StoreIsIsolated` | src/mem/vmm.rs:242-324 | A store that the tables allow changes that byte of that page of that space in what programs see, and no other page of any space |
| `CowTheorems.StoresSurviveSharing` | src/cpu/idt.rs:218-224 | Between handlers a page may be written in the copying kernel exactly when it can be written now or its write fault is taken: sharing takes no permission away and gives none |
| `CowTheorems.ShareCountFormula` | src/mem/frames.rs:140-187 | In every reachable state the count of an owned frame is its entries (abandoned fork tables included) plus releases in flight minus counts still to be raised minus one, and every other frame has count 0 |
| `CowTheorems.WriterIsOnlyOwner` | src/mem/vmm.rs:580-600 | A user-writable entry is the only owner of its frame: no other entry, no release in flight, count 0 |
| `CowTheorems.FreeIsSafe` | src/mem/frames.rs:166-187 | When a release frees a frame, that frame is in use, mapped by nobody, and no other release of it is under way; so each is freed once |
| `CowTheorems.NothingLeaks` | src/mem/vmm.rs:471-523 | When every space is gone, only the frames the kernel took for itself are in use and all counts are 0 |
| `CowTheorems.OneFaultIsEnough` | src/cpu/idt.rs:218-224 | While the handler of a space runs among steps of any other spaces and stores of any threads, its page stays on the way to writable, and once it returns every store to that page is allowed |
| `CowTheorems.FaultKeepsBytes` | src/mem/vmm.rs:568-612 | Until something is stored to the page, the same run leaves its bytes as they were |
| `CowAlone.ForkIsRun` | src/mem/vmm.rs:242-324 | A fork that runs alone on the tables is a run of the interleaved protocol, from fork begin to fork end, with the same entries and memory |
| `CowAlone.FailedForkIsRun` | src/mem/vmm.rs:242-324 | So is one that runs out of frames, with the pages the child got |
| `CowAlone.ResolveIsRun` | src/mem/vmm.rs:568-612 | So is a resolved fault: read the count, then restore in place or fetch, copy, repoint and lower the count |
| `CowAlone.DestroyIsRun` | src/mem/vmm.rs:452-523 | So is a teardown, one page and one release after the other |
| `CowAlone.QuietIsCounted` | src/mem/frames.rs:140-187 | Between operations the counts of the protocol are those the page tables require |
| `CowRefinement.StepKeepsInv` | src/mem/frames.rs:154-187 | Every one of the interleaved steps keeps counts, owners, writers and in-flight releases in order |
| `Frames.FrameAllocator.Alloc` | src/mem/frames.rs:69-95 | A frame comes from the lowest clear bit of the first word with one, words counted cyclically from the hint; refused only when every frame is used |
| `Frames.FrameAllocator.Release` | src/mem/frames.rs:166-187 | The last owner frees the frame; any other lowers its count by one; nothing else changes |
| `PageTableSpec.WalkIsLookup` | src/mem/vmm.rs:382-416 | Walking the four levels of a well-formed tree is looking the page up in the partial map the tree stands for |
| `Vmm.Machine.NewUser` | src/mem/vmm.rs:216-236 | An empty lower half and the kernel half of the boot table, in one frame that was free |
| `Vmm.Machine.Map` | src/mem/vmm.rs:328-379 | On success the map from pages to entries gains exactly this page; on each failure it is unchanged, and the failure says why |
| `Vmm.Machine.Translate` | src/mem/vmm.rs:382-416 | Looks the page up in that map |
| `Vmm.Machine.Unmap` | src/mem/vmm.rs:420-449 | Removes exactly this page and returns its frame |
| `Vmm.Machine.ForkCow` | src/mem/vmm.rs:242-324 | Every user page of the parent appears in the child with the same frame, both entries downgraded the same way and counted; a fork that runs out of frames has shared each page with both or left it alone in both, and the invariant still holds with the abandoned tables counted |
| `Vmm.Machine.CowResolve` | src/mem/vmm.rs:568-612 | Resolves a fault if and only if the page is present and copy-on-write and is its sole owner or a frame is free: the sole owner keeps its frame, any other gets a copy in a frame that was free; the page becomes privately writable, no other entry changes, and every mapped page holds the bytes it held |
| `Vmm.Machine.FreeAll` | src/mem/vmm.rs:471-523 | Frees every table of the lower half and drops one share of every page of the root, and nothing else |
| `Vmm.Machine.Destroy` | src/mem/vmm.rs:452-468 | The pages and tables of the root are gone, all others stay, and a frame is in use afterwards exactly if it was and is still owned |
| `Vmm.GuardKeepsLowerHalf` | src/mem/vmm.rs:328-340 | Among the addresses the guard of map lets through, exactly those with bit 47 clear stay below the kernel half |
| `Vmm.GuardGap` | src/mem/vmm.rs:328-340 | The first address past the lower half passes the guard and would reach a kernel table |
| `UserHeap.Task.Sbrk` | src/user/heap.rs:62-132 | Keeps the mapped arena exactly [base, aligned break); fresh pages read zero; a refusal changes neither break nor mappings and has a cause; the pages outside the moved range keep entry and bytes; every frame taken is a table or mapped |
| `UserHeap.Task.Rollback` | src/user/heap.rs:137-145 | Undoes a partial growth: the pages mapped so far are unmapped and released |
| `FatVolume.Fat32.FatSet` | src/fs/fat32.rs:358-377 | One entry changes in the cache and in every on-disk copy; all copies equal the cache again; no sector outside the FAT area moves |
| `FatVolume.Fat32.AllocCluster` | src/fs/fat32.rs:380-392 | Takes the lowest free cluster and end-marks it; refuses only when none is free |
| `FatVolume.Fat32.FreeChain` | src/fs/fat32.rs:395-411 | Every member of the chain, up to the step guard, becomes free and no other entry changes; the acyclic order is the termination measure |
| `FatVolume.Fat32.AllocChain` | src/fs/fat32.rs:414-440 | Takes as many clusters as asked if and only if that many are free; a shortage restores the table exactly, although the rollback frees linked members one by one |
| `FatVolume.Fat32.Rollback` | src/fs/fat32.rs:414-440 | Freeing the members of a partly built chain one at a time, each call following the links, gives back the table as it was |
| `FatVolume.Fat32.WriteChain` | src/fs/fat32.rs:414-452 | Succeeds if and only if enough clusters are free; then a new acyclic chain holds the data zero-padded and no other cluster changed |
| `FatVolume.Fat32.ReadChain` | src/fs/fat32.rs:145-164 | The bytes of the clusters of the chain in order, up to the step guard |
| `FatVolume.ReadBackIff` | src/fs/fat32.rs:145-164 | What was written reads back, cut to its length, if and only if the chain is no longer than the step guard |
| `FatVolume.Fat32.Mount` | src/fs/fat32.rs:64-119 | Fails exactly on a short device or a bad parameter block, with the error of the first bad field; else caches the first FAT copy |
| `FatSpec.RemountFindsTable` | src/fs/fat32.rs:64-119 | Decoding the first FAT copy of a mirrored volume gives the cached table |
| `FatSpec.FatSectorRoundTrip` | src/fs/fat32.rs:358-377 | An entry decoded from the sector built from the cache is the cached entry |
| `FatSpec.AddedChainFree` | src/fs/fat32.rs:414-440 | A new chain takes exactly its length from the free clusters |
| `FatSpec.ZeroedFree` | src/fs/fat32.rs:395-411 | Freeing a chain gives back exactly its clusters |
| `FatDirSpec.DirentRoundTrip` | src/fs/fat32.rs:480-508 | Parsing a directory slot gives back the name, first cluster, size and attribute it was made from |
| `FatDirSpec.DisplayIsInjective` | src/fs/fat32.rs:197-273 | Two proper short names that read the same with their dot are the same |
| `FatTreeSpec.FormattedIsEmptyTree` | src/fs/fat32.rs:64-119 | A volume with nothing but a root directory, volume label or not, is a well-formed tree whose only node is the root |
| `FatTree.Filesystem.Remount` | src/fs/fat32.rs:64-119 | After any operations, mounting again cannot fail and finds the same geometry, root, table and tree of names to bytes |
| `FatTree.Filesystem.Lookup` | src/fs/fat32.rs:276-306 | Resolves a path in the tree behind the sectors, component by component |
| `FatTree.Filesystem.Cat` | src/fs/fat32.rs:323-332 | Returns the bytes the tree has at the path, or says whether nothing or a directory is there |
| `FatTree.Filesystem.Ls` | src/fs/fat32.rs:314-321 | Lists exactly the children of the directory, none twice, in the order of their slots, with first cluster, size and kind; the two dot entries only below the root |
| `FatTree.Filesystem.TakeDirSlot` | src/fs/fat32.rs:585-607 | The lowest deleted or unused slot, else the first of a fresh zeroed cluster linked behind the chain; the directory grows by one cluster exactly when it was full; refused if and only if it is full and no cluster is free; contents unchanged |
| `FatTree.Filesystem.PatchSlot` | src/fs/fat32.rs:455-471 | One slot of the directory is rewritten and no other byte of any cluster changes |
| `FatTree.Filesystem.WriteFile` | src/fs/fat32.rs:611-697 | How it ends is a function of the state before: disk full if and only if fewer clusters are free than the data takes, plus one if a new name finds its directory full. On success the tree gets exactly this file with exactly these bytes, under its own name or an alias that nobody had, every other path is unchanged, and free clusters before plus the old chain equal free clusters after plus the new chain plus the growth of the directory. A refusal leaves contents alone, and loses the stored chain exactly when the data took the last free clusters and the directory could not grow |
| `FatTree.TargetIsPathIff` | src/fs/fat32.rs:670-684 | The file written is the one asked for if and only if it existed or no volume label of its directory reads like its name; else it gets an alias |
| `FatTree.PickName` | src/fs/fat32.rs:670-684 | The name itself if free, else the first free of STEM~1 to STEM~9, else none |
| `FatTree.Filesystem.Mkdir` | src/fs/fat32.rs:703-751 | How it ends is a function of the state before: disk full if and only if no cluster is free, or just one and the parent is full. On success adds exactly an empty directory with its two dot slots; one cluster, and one more if the parent was full; a failure undoes everything |
| `FatTree.Filesystem.Rmdir` | src/fs/fat32.rs:753-821 | Removes exactly an empty directory and frees exactly its chain; anything else is refused with its reason and no change |
| `FatTree.Filesystem.Delete` | src/fs/fat32.rs:831-900 | Removes exactly a file and frees exactly its chain; anything else is refused with its reason and no change |
| `FatTreeOps.TreeAdd` | src/fs/fat32.rs:585-607 | Writing a new slot keeps the tree well formed: chains acyclic, disjoint, end-marked, each taken cluster in one of them, names unique, slots past the first end mark still end marks |
| `FatTreeOps.TreeReplace` | src/fs/fat32.rs:646-668 | So does pointing an existing slot at a new chain and freeing the old one |
| `FatTreeOps.TreeRemove` | src/fs/fat32.rs:831-900 | So does turning a slot into a tombstone and freeing its chain |
| `FatTreeOps.TreeGrow` | src/fs/fat32.rs:585-607 | So does linking a zeroed cluster behind a full directory, and nobody sees it |
| `TcpTheorems.StreamSafety` | src/net/tcp.rs:322-366 | Over any loss, duplication, reordering, retransmission, acknowledgement and reading, bytes received plus the RX ring are a prefix of what was sent; the TX ring is exactly the unacknowledged end of the stream; no byte leaves it before the peer has it; no step panics |
| `TcpTheorems.RunKeepsInv` | src/net/tcp.rs:591-722 | Every run keeps both flows consistent |
| `TcpSpec.AcceptsOnlyFullAck` | src/net/tcp.rs:674-684 | The zero-extended comparison accepts an acknowledgement if and only if it covers everything sent |
| `TcpSpec.PanicsIffStraddling` | src/net/tcp.rs:674-684 | The checked subtraction after it overflows if and only if the unacknowledged window straddles 2^32 |
| `TcpTheorems.StraddlingIsFinal` | src/net/tcp.rs:674-684 | A straddling window never gets smaller: the acknowledgement that would end it panics and every other is ignored |
| `TcpTheorems.SendSafeIffFits` | src/net/tcp.rs:340-361 | One send keeps the sender consistent if and only if the data fits the free part of the TX ring |
| `TcpTheorems.LongSendOverruns` | src/net/tcp.rs:340-361 | A longer send puts bytes in front of the peer that the sender does not count as sent |
| `TcpTheorems.RetransmitHelpsIff` | src/net/tcp.rs:773-822 | A retransmission delivers something new if and only if the peer stands where the TX ring starts and has room |
| `TcpTheorems.AckHelpsIff` | src/net/tcp.rs:674-684 | An acknowledgement empties the TX ring if and only if the peer has everything; a partial one does nothing |
| `TcpTheorems.RunKeepsTiles` | src/net/tcp.rs:322-366 | In every run the sends cover the stream without overlap and every segment with data starts where a send started |
| `TcpTheorems.TearsIff` | src/net/tcp.rs:686-698 | Taking what fits of a segment leaves the peer where no segment will ever start, short of the end, if and only if what was taken ends inside a send |
| `TcpTheorems.WholeSendIsSafe` | src/net/tcp.rs:686-698 | So the segment of a send that is taken whole never tears the stream |
| `TcpTheorems.PartOfSendTears` | src/net/tcp.rs:686-698 | And one that is taken in part always does |
| `TcpTheorems.RetransmissionTearsIff` | src/net/tcp.rs:803-818 | A retransmission, whole or in part, tears it if and only if the end of what is taken is inside a send |
| `TcpTheorems.LostRoundTears` | src/net/tcp.rs:803-818 | From the start, two sends of 1000 bytes that are lost and one retransmission of 1400 bytes into an empty ring tear it |
| `TcpTheorems.TornIsFinal` | src/net/tcp.rs:741-822 | From then on, in every run, the peer accepts nothing more and the sender gets nothing acknowledged |
| `TcpTheorems.StuckIffTorn` | src/net/tcp.rs:591-722 | An unacknowledged stream between open sockets can make no progress in any run if and only if it is torn |
| `TcpTheorems.RunStuckIff` | src/net/tcp.rs:591-722 | After every run of two established sockets: exactly when the peer is past what is acknowledged and stopped inside a send |
| `TcpTheorems.RepeatIsHarmless` | src/net/tcp.rs:591-722 | Handling a segment a second time changes nothing |
| `Tcp.Socket.Send` | src/net/tcp.rs:322-366 | The in-place rings do what the socket function says: keep what fits, transmit all of it |
| `Tcp.Socket.HandleInband` | src/net/tcp.rs:669-719 | The established arm on the in-place rings: acknowledge, take in order, answer; panics exactly on overflow |
| `Tcp.Socket.Recv` | src/net/tcp.rs:368-408 | Pops the oldest bytes, or says why there are none |
| `SchedTheorems.StepKeepsInv` | src/sched.rs:1911-2011 | One interrupt on one CPU, whatever its task asked for, leaves one running current task per CPU, names, pins, idle homes and address-space life in order |
| `SchedFairness.Exclusion` | src/sched.rs:1944-2011 | After every run, distinct CPUs run distinct tasks, each current task is Running and allowed there, and nobody else is Running |
| `SchedFairness.SpacesLiveAndDieOnce` | src/sched.rs:1172-1191 | After every run an address space was destroyed once if no task holds it and never while one does |
| `SchedFairness.BoundedWaiting` | src/sched.rs:1868-1905 | A ready task that is no idle task stays unchosen for at most MAX_TASKS - 2 switches of a CPU it may run on, while nothing is created, whatever the other CPUs do |
| `SchedSpec.DeliverTerminated` | src/sched.rs:1955-1971 | A candidate ended by its signals leaves fewer live tasks although it may wake another, so pick, deliver and pick again ends |
| `SchedLimits.KillSparesHomesIff` | src/sched.rs:1366-1410 | kill leaves every CPU its resident idle task if and only if it does not name one that is off its CPU |
| `SchedLimits.EndedRunsIffNobodyElse` | src/sched.rs:1973-1984 | Where the ends wake nobody, an ended current task is put back on its CPU if and only if every other task that is Ready and may run there is about to be ended by its pending signals |
| `SchedLimits.EndedLeavesForHome` | src/sched.rs:1973-1984 | Never while the resident idle task of the CPU is Ready |
| `SchedLimits.KilledIdleRevivesTheEnded` | src/sched.rs:1366-1410 | From a concrete boot state, killing the idle task and then exiting leaves the ended task running |
| `SchedLimits.MarkedEndsIffNoTimer` | src/sched.rs:1925-2011 | A thread marked by a process exit and still running is ended by a whole interrupt if and only if that is not the timer; after a timer it is as marked as before and ready or running |
| `Scheduler.Machine.PostDispatch` | src/sched.rs:1911-2011 | The in-place park, reap, pick, deliver and run loops compute the interrupt function |
| `Scheduler.Machine.PickNext` | src/sched.rs:1868-1905 | The scan loop finds the round-robin choice |
| `Scheduler.Machine.FinishZombie` | src/sched.rs:1172-1240 | The in-place end of a task: last reference destroys the space, then the waiting parent or joiner wakes |
| `Scheduler.Machine.ExitCurrent` | src/sched.rs:1245-1325 | A process exit takes its group along: parked threads now, running ones marked |
| `IpcSpec.ChannelsAreSafe` | src/ipc.rs:89-168 | After every run consumed bytes then the ring are the accepted sends in order; and if no copy-out failed, both ends of a channel are never parked without a wake-up on its way |
| `IpcSpec.KeepsWakesIff` | src/ipc.rs:131-168 | A step keeps every sleeper justified if and only if it is not a recv that drains the ring and then fails to copy out |
| `IpcSpec.FailedReceivesDeadlock` | src/ipc.rs:150-160 | From such a state a run exists in which both ends sleep and no wake-up is on its way |
| `Ipc.Chan.Send` | src/ipc.rs:89-128 | The in-place ring appends the whole message or registers the sender, and says whom to wake |
| `Ipc.Chan.Recv` | src/ipc.rs:131-168 | The in-place ring gives its oldest bytes and the sender to wake, or registers the receiver; a failed copy-out loses the bytes and wakes nobody |
| `Ipc.Channels.Open` | src/ipc.rs:65-86 | A key that is open gives its channel unchanged, a new one the first free slot with an empty channel |
| `FreeBlocks.TilingCovers` | user/src/heap.rs:9-31 | Every place below the break is in exactly one block |
| `FreeBlocks.AllFreeIsOne` | user/src/heap.rs:19-22 | When nothing is live, one free block spans the arena |
| `FreeBlocks.TakenTiled` | user/src/heap.rs:186-204 | Handing out the head of a block keeps the tiling and leaves no two free neighbours |
| `FreeBlocks.FreedTiled` | user/src/heap.rs:103-137 | So does giving a block back, merged with both neighbours |
| `MallocSpec.GrownFits` | user/src/heap.rs:80-99 | After a granted growth something fits: the chunk, or the chunk merged with a free top block |
| `MallocLinks.HeaderRoundTrip` | user/src/heap.rs:41-49 | Header fields read back what was written and writing one leaves the other |
| `MallocLinks.FreedLinked` | user/src/heap.rs:103-137 | After the header writes of insertion the list in memory is the address order of the free blocks |
| `Malloc.Arena.InsertFree` | user/src/heap.rs:103-137 | The list walk and header writes free the block with both merges; no live block is touched |
| `Malloc.Arena.Alloc` | user/src/heap.rs:155-238 | First fit: a 16-aligned payload large enough in a block that was not live, every live block and its bytes kept; null exactly over the cap or when nothing fits and the kernel refuses |
| `Malloc.Arena.Release` | user/src/heap.rs:246-259 | A bogus pointer changes nothing; a live one stops being live and all others keep size and bytes |
| `Malloc.Arena.AllocZeroed` | user/src/heap.rs:262-273 | Null exactly as malloc or on overflow of the product; else the bytes are zero |
| `Malloc.Arena.Resize` | user/src/heap.rs:280-301 | The new block begins with what both sizes hold of the old one, which is freed; every other live block keeps its bytes; a refusal changes nothing |
| `Malloc.Arena.Store` | user/src/heap.rs:80-99 | Whatever bytes a program writes inside its payload, list and tiling stand |
| `KernelHeap.Heap.Alloc` | src/mem/heap.rs:140-213 | First fit with the worst alignment shift reserved; null if and only if no bytes or more than 2^30 are asked for or no block has that much; the payload is aligned, behind its header inside the block, the rest from 48 bytes on stays a free block, and every other live block keeps its bytes |
| `KernelHeap.Heap.Release` | src/mem/heap.rs:257-319 | The block stops being live and all others keep place, payload and bytes; the kernel stops if and only if the list is longer than 4096 blocks before or after, and at a pointer that no header stands before; no other guard fires |
| `KernelHeap.Heap.ValidateWalk` | src/mem/heap.rs:219-255 | On a sound heap the walk fails if and only if the list has more than 4096 blocks |
| `HeapSpec.GivenBackTiled` | src/mem/heap.rs:284-314 | Insertion and merging keep the tiling |
| `HeapSpec.StaysCoalescedIff` | src/mem/heap.rs:284-314 | It leaves two free neighbours if and only if both neighbours of the block were free |
| `HeapSpec.AllFreeYetTwo` | src/mem/heap.rs:284-314 | The middle one of three blocks freed last leaves two blocks where merging both ways would leave one |
| `HeapSpec.HandedRecorded` | src/mem/heap.rs:164-208 | After the writes of alloc, memory holds the list in address order and the header of every live block |
| `HeapSpec.GivenRecorded` | src/mem/heap.rs:284-314 | So it does after the writes of free |
| `HeapSpec.PayloadWritesKeep` | src/mem/heap.rs:21-28 | And after any write inside the payload of a live block |
| `HeapSpec.PayloadsApart` | src/mem/heap.rs:159-201 | Header and payload of a live block end before the header of the next begins |
| `HeapSpec.CountAfterFree` | src/mem/heap.rs:284-314 | The list grows by one if and only if the block merges with neither neighbour |
| `HeapSpec.CountAfterAlloc` | src/mem/heap.rs:167-190 | It shrinks by one if and only if no tail is left |
| `Checksums.FoldIs` | src/net/proto.rs:305-307 | The carry loop computes the sum modulo 65535, with 65535 for a nonzero multiple |
| `Checksums.OneWordChange` | src/net/proto.rs:295-309 | Changing one word of verified data goes unnoticed exactly between 0x0000 and 0xFFFF when a nonzero word remains |
| `Checksums.ChecksumOf` | src/net/proto.rs:295-309 | The loops compute the complement of the folded word sum |
| `Packets.Ipv4Put` | src/net/proto.rs:111-127 | The first twenty bytes become the header and the rest of the buffer stays |
| `Packets.Ipv4RoundTrip` | src/net/proto.rs:138-160 | A built header verifies and parses to its fields, and to its whole payload if and only if the length fits 16 bits |
| `Packets.Ipv4OneWordChange` | src/net/proto.rs:138-160 | Changing one word, the first byte aside, is still accepted if and only if it is between 0x0000 and 0xFFFF |
| `Packets.Ipv4FirstWordChange` | src/net/proto.rs:138-160 | Changing the first word is still accepted if and only if it claims version 4 and a header length the packet has, and the words between the two lengths balance the change modulo 65535 |
| `Packets.TcpPut` | src/net/proto.rs:326-372 | The front of the buffer becomes the segment with its checksum and the rest stays |
| `Packets.TcpVerify` | src/net/proto.rs:376-398 | Accepts exactly the segments whose sum with the pseudo-header folds to 0xFFFF |
| `Packets.TcpRoundTrip` | src/net/proto.rs:412-429 | A built segment verifies under its pseudo-header and parses back to all its fields |
| `Packets.TcpOneWordChange` | src/net/proto.rs:376-398 | Changing one word of a verified segment goes unnoticed exactly between 0x0000 and 0xFFFF |
| `Packets.SegmentSumFits` | src/net/proto.rs:350-369 | Up to 131062 bytes the 32-bit accumulator never overflows |
| `Calendar.DateRoundTrip` | src/cpu/rtc.rs:95-118 | civil_from_days gives back every valid date that days_from_civil numbered |
| `Calendar.DayRoundTrip` | src/cpu/rtc.rs:95-118 | Every day number decodes to a valid date that has this number |
| `Calendar.CountsDays` | src/cpu/rtc.rs:95-104 | 1970-01-01 is day 0 and the day after any date has the next number, by the calendar rules of leap years and month lengths |
| `Calendar.CountingIsMonotone` | src/cpu/rtc.rs:95-104 | One date is before another if and only if its number is smaller |
| `Calendar.HourReadIff` | src/cpu/rtc.rs:136-153 | In 12-hour mode the hour comes back right if and only if the clock is binary or it is before noon; else the sanity check refuses it |

## Left out

- KernelHeap.Heap.Release: a pointer that is no live payload but has a well-formed header before it is excluded, and so
  is a program that writes outside its payloads; the diagnostics a guard prints, the lock, and an arena that could not
  be had are not modelled.
- KernelHeap.Heap.Alloc: alignments are any positive number; the mask of the code is the same for powers of two.
- Share counts are unbounded: the 32-bit counter cannot overflow with the number of entries memory can hold.
- The compare-exchange loop of `release` and the interleaving of CPUs are in `CowProtocol` only; the methods of `Vmm` and
  `Frames` run alone.
- Page-table words are records; the packing of flag bits and huge pages, which never occur below the kernel half, are
  not modelled. Frames are named by number. TLB shootdown is not modelled.
- Kernel copies into user pages (src/user/uaccess.rs), which do not look at the copy-on-write bit; two threads of one
  space that fault at once; `alloc_contig` beside `alloc`; concurrent `sbrk` calls.
- Vmm.Machine.Map: addresses between the lower half and the kernel half are not covered, because there `map` would walk
  a shared kernel table (`GuardGap`).
- Vmm.Machine.ForkCow: the nested loops over four levels are one recursive method, and on failure how far the walk came
  is left open, as the caller drops the child.
- FatTree.Filesystem.WriteFile: a target that is a directory is not covered; the code would free the chain of the
  directory and orphan what is below it.
- FatTree.Filesystem.Mkdir: device errors in the middle of an operation are not modelled, here and in every method.
- FAT path splitting, case folding, "." and ".." as path components, long names, and times other than the fixed stamp.
- TCP handshake, FIN, RST, close, ARP and frame sending; the counters for display.
- IPC slot reuse by a new task, and more than one sender or receiver per channel.
- Scheduler: kernel stacks, the exit-code mailbox (a boolean parameter), pipes, windows, nested signal frames, and
  interleavings finer than one interrupt.
- SchedLimits.EndedRunsIffNobodyElse: where ending a doomed task wakes a parent or a joiner the outcome depends on the
  round-robin order of the ends, so the condition is stated for ends that wake nobody; `EndedLeavesForHome` and
  `SomebodyIsChosen` need no such condition.
- User malloc in several threads at once, and programs that move the break themselves.
- Malloc.Arena.Release: a pointer that passes the address checks without being live is undefined there and excluded.
- Packets.TcpPut: stated for payloads of any length; the code's 32-bit sum agrees up to `SEGMENT_MAX` bytes
  (`SegmentSumFits`).
- ARP, UDP and ICMP packets; `fmt_datetime` and `fmt_hms`; reading the clock registers.
