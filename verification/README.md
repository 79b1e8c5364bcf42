# Verified models of the hard parts of an inference engine

This project models the places of the engine where a wrong step is expensive and hard to see, and proves what
they promise. `dafny verify dfyconfig.toml` checks all of it.

- **Block files** (`BlockStore`, `BlockStoreOutcome`, `BlockStoreCode`). Processes store, load and look up cache blocks as files. Every
  system call is one step, any processes may interleave, and any process may die between two steps. `BlockStore` is
  the state machine; `BlockStoreCode` is the code itself, with other processes acting between any two of its calls;
  each method returns the run of the machine that it followed. `BlockStoreOutcome` says what a batch reports, given what
  the kernel answered. What `rename()`, `open()` and `unlink()` do is as chapter 3 of the XSH
  volume of POSIX.1-2017 describes it.
- **Sleep allocator** (`Chunking`, `DeviceMemory`, `SleepAllocator`, `SleepChunks`, `SleepInvariant`, `SleepMode`). Device memory is
  allocated in chunks, released while the process sleeps, and mapped again at the same address. The driver may fail at
  any call. It keeps a log of all calls with their arguments, their answers, and whether it was bound to refuse them;
  what the code promises is stated of that log.
- **Graph partition** (`GraphPartition`, `GraphPartitionMeaning`, `GraphPartitionExact`). A backward pass computes what each partition of a
  compiled graph takes in, hands back and frees. The meaning of a partitioned run is compared with that of the whole
  graph.
- **Memory planning** (`MemoryPlan`). Buffer lines are planned with the state of the subgraph they are in.
- **Selective scan** (`SelectiveScan`, `ScanClosedForm`, `ScanKernel`, `ScanCaching`, `ScanGrid`). A state-space scan kernel that
  overwrites its own inputs, checkpoints its state into cache slots, and resumes from them. Arithmetic is a parameter
  that obeys two laws (a product with zero is zero, adding zero changes nothing), so the results do not depend on
  rounding. `ScanClosedForm` says what is computed when arithmetic is exact and `exp` turns sums into products.
- **Quantization** (`Quantizer`). Per-token integer quantization over the reals. What the conversion of the zero point
  to 32 bits makes of a number that does not fit is a parameter.
- **Build report** (`BuildTime`, `BuildLog`). The sweep that divides elapsed time among concurrent build steps, and the
  reader that decides which records of a log belong to the last build.
- **Paged gather** (`Gather`) and **polling loop** (`Spinloop`).

`Arithmetic`, `Bytes` and `Options` hold what several of these share.

Failures of system and driver calls, clock readings, bytes of fresh memory, alignment and granularity, and the
interleaving of processes and writers are nondeterministic choices or parameters.

Several promises turned out to hold only under a condition. Each of these is stated as an equivalence, or as a pair of
a theorem and a concrete failure:

- A load deletes the stored block whenever its buffer is larger than the block, although the block is intact
  (`DeleteIffOversized`, `OversizedLoadDeletesBlock`). The comment in the code takes such a read as proof of corruption.
- A partitioned run stops when a partition is the last user of an unallocated buffer of an earlier partition
  (`PartitionedRunMeansTheSame`, `TokenGraphFails`).
- A listing that leaves a subgraph before entering one passes the final assertion of memory planning
  (`UnbalancedCanSurvive`).
- The length test for the monitored buffer does not ensure that the buffer lies in one monitored line
  (`CrossingBufferLosesWakeup`).
- Asymmetric quantization is accurate on every platform exactly when the zero point and its negation fit 32 bits
  (`AsymmetricIsAccurateIff`, `LargeOffsetFails`).
- `create_and_map`, called while an error stands, leaves one handle behind exactly when its first create succeeds
  (`CreateAndMap`). `my_malloc` leaves a registry entry behind exactly when the reservation succeeds and a later call
  fails (`Malloc`). `my_free` makes a call that the driver must refuse exactly when the size it is called with is not the
  rounded one (`Free`, `AllocateAndFree`).
- A configured chunk size can round up to zero, and the number of chunks is computed by dividing by it
  (`ChunkSettingIsZeroIff`).
- A build that repeats a command of the one before can lose its own first steps in the report (`BuildIsShownIff`,
  `BuildCanBeCutShort`).

## Model

| member | source | states |
|---|---|---|
| BlockStore.StepKeepsInv | csrc/fs_io.cpp:40-120 | every system call of every process, and every death of a process, keeps the invariant |
| BlockStore.RunKeepsInv | csrc/fs_io.cpp:40-120 | the invariant holds after every run |
| BlockStore.OthersKeep | csrc/fs_io.cpp:40-120 | whatever other processes do between two calls of one process, the invariant holds, that process stands where it stood, and everything ever present is still on record |
| BlockStore.EveryRunIsSafe | csrc/fs_io.cpp:36-113 | after every run, from a directory of complete blocks and stray temp files, a destination names nothing or a complete block, and every block that a load batch has passed is in its buffer byte for byte when the sizes agree |
| BlockStore.LoadBatchIsAPrefix | csrc/fs_io.cpp:297-335 | a load batch, running, ended or failed, has loaded exactly the blocks before `next` and not touched the buffers after it; it ends with 0 exactly when all are loaded |
| BlockStore.StoreBatchIsAPrefix | csrc/fs_io.cpp:234-250 | a store batch has published only blocks before `next`, all of those have been present, and it ends with 0 exactly when all are stored |
| BlockStore.RunLosesNothing | csrc/fs_io.cpp:40-120 | along every run with fitting buffers nothing that was ever present disappears |
| BlockStore.PresenceIsPermanent | csrc/fs_io.cpp:42-44 | a destination that has been present is present now and after any continuation |
| BlockStore.StoredBlockIsAlwaysFound | csrc/fs_io.cpp:71-78 | after a store returned 0, even if its process has died since, no load of that block fails with file-not-found |
| BlockStore.StoredBlockIsNeverMissing | csrc/fs_io.cpp:115-120 | nor is a lookup of that block ever answered with file-not-found |
| BlockStore.LookupStaysTrue | csrc/fs_io.cpp:115-120 | a path that a lookup reported present stays present |
| BlockStore.DeleteIffOversized | csrc/fs_io.cpp:95-107 | in every reachable state a completed read goes on to delete the file exactly when the buffer is larger than the block |
| BlockStore.OversizedLoadDeletesBlock | csrc/fs_io.cpp:102-107 | whenever a block is present, one load with a larger buffer removes it |
| BlockStore.NoTempIsLeftBehind | csrc/fs_io.cpp:36-75 | along every run in which nobody dies and every cleanup succeeds, whatever else fails, the only temp files are those being worked on, and there are none when no store is running |
| BlockStoreOutcome.StoreEndsWithFirstError | csrc/fs_io.cpp:40-77 | in every run a store batch that has ended reports the error of the first of its calls that failed, a short write being EIO and an access that fails being none, and 0 exactly when none failed |
| BlockStoreOutcome.LoadEndsWithFirstError | csrc/fs_io.cpp:87-113 | in every run a load batch that has ended reports the error of the first open or read that failed, or EIO at the first buffer larger than its block, and 0 otherwise |
| BlockStoreOutcome.GoodStoreSucceeds | csrc/fs_io.cpp:42-77 | whenever a block is absent and its temporary name free, the run in which every call succeeds publishes the block, removes the temporary name, leaves every other name alone and ends with 0 |
| BlockStoreOutcome.GoodLoadSucceeds | csrc/fs_io.cpp:89-112 | whenever a block is present and the buffer no larger, the run in which every call succeeds ends with 0 and the block in the buffer |
| BlockStoreCode.Kernel.WriteAndPublish | csrc/fs_io.cpp:57-78 | whatever others do in between, the code follows a run of the machine from the write to where the block returns, and has published the block if it returns 0 |
| BlockStoreCode.Kernel.StoreBlock | csrc/fs_io.cpp:40-78 | whatever others do in between, the code follows a run of the machine; by the kernel's answers, it returns the error of the first call that failed after the access, and 0 exactly if the block was there or all six calls were answered without an error, and then it has been published |
| BlockStoreCode.Kernel.LoadBlock | csrc/fs_io.cpp:87-113 | the same for loads: it returns the error of its open or read, EIO if the buffer is larger than the block, and 0 otherwise; only the one buffer changes and it keeps its length |
| BlockStoreCode.Kernel.BatchStore | csrc/fs_io.cpp:234-250 | follows a run of the machine to the end of the batch; stops at the first failure with its index and error, which is that of the first failing call; all blocks before it have been present, and the error is 0 exactly when none failed |
| BlockStoreCode.Kernel.BatchLoad | csrc/fs_io.cpp:297-335 | follows a run of the machine; the blocks before the failed index are loaded, the buffers after it are untouched, `num_succeeded` is the failed index, and the error is that of the first open or read that failed, or EIO for the first buffer larger than its block |
| BlockStoreCode.Kernel.BatchLookup | csrc/fs_io.cpp:115-120 | a path is reported present exactly when its access succeeded, and then it has been present; with buffers that fit, a block that was ever present is reported absent only after an error other than file-not-found |
| Chunking.ChunkSetting | csrc/cumem_allocator.cpp:22-43 | the configured chunk size is a positive number of megabytes below 64 bits: the setting if it is usable, the default otherwise |
| Chunking.AlignUpIff | csrc/cumem_allocator.cpp:366 | rounding up is the least large enough multiple exactly when the sum does not wrap around 64 bits |
| Chunking.AlignUpIsZeroIff | csrc/cumem_allocator.cpp:366 | rounding up gives zero exactly for zero and when the sum wraps |
| Chunking.ChunkSettingIsZeroIff | csrc/cumem_allocator.cpp:391-395 | the chunk size that divides is zero exactly when rounding the setting wraps, as it does for 17592186044415 megabytes with a granularity of two |
| Chunking.AlignedIff | csrc/cumem_allocator.cpp:366 | a size equals its rounding exactly when it is a multiple of the granularity |
| Chunking.CountIff | csrc/cumem_allocator.cpp:394-395 | the number of chunks is enough and not one too many, and is zero when the count wraps |
| Chunking.ComputeChunks | csrc/cumem_allocator.cpp:396-416 | fails exactly for a chunk size of zero; otherwise the chunks are positive multiples of the granularity, all but the last are whole, and they add up to the rounded size exactly when the count does not wrap |
| Chunking.ByteHasOneChunk | csrc/cumem_allocator.cpp:184-203 | every byte of the range lies in exactly one chunk |
| DeviceMemory.ReleaseUndoesCreate | csrc/cumem_allocator.cpp:174-182 | releasing what was created restores the handles exactly when every release succeeds |
| DeviceMemory.UnmapUndoesMap | csrc/cumem_allocator.cpp:184-203 | unmapping what was mapped restores the mappings exactly when every call succeeds |
| SleepAllocator.Driver.CreateHandles | csrc/cumem_allocator.cpp:174-183 | one create per chunk up to the first failure; then exactly one release of each handle created before it, after which the device is as on entry exactly when all of those succeed; while an error stands, one create and no release |
| SleepAllocator.Driver.MapUntilFailure | csrc/cumem_allocator.cpp:184-190 | one map per chunk, at its place, up to the first failure; what was mapped is there and nothing else changed |
| SleepAllocator.Driver.RollBack | csrc/cumem_allocator.cpp:191-203 | exactly one unmap of each mapped chunk at its place and one release of each handle, whatever fails; the mappings are as before exactly when every unmap succeeds |
| SleepAllocator.Driver.MapChunks | csrc/cumem_allocator.cpp:184-203 | all chunks are mapped one after the other, or the failing map is followed by one unmap of every chunk before it and one release of every handle, and the mappings are as before exactly when every unmap succeeds |
| SleepAllocator.Driver.CreateAndMap | csrc/cumem_allocator.cpp:119-240 | the calls have the prescribed shape; it succeeds exactly when no error stood and all of them succeed, and then the range is mapped and zero; whichever create or map fails first, the device is as on entry exactly when every call that undoes the work succeeds; with an error standing one handle is left exactly when the first create succeeds; on an empty range the driver need refuse none of the calls |
| SleepAllocator.Driver.UnmapChunks | csrc/cumem_allocator.cpp:263-271 | makes one unmap call per chunk, in order and at its place, whatever fails: exactly those whose call succeeded are gone, and the first error is kept |
| SleepAllocator.Driver.UnmapAndRelease | csrc/cumem_allocator.cpp:242-286 | one unmap call per chunk and one release call per handle, in order, in spite of failures; reports the first one; the driver need refuse none of them if the chunks are mapped and the handles live |
| SleepAllocator.Driver.ReserveRocm | csrc/cumem_allocator.cpp:50-71 | succeeds exactly when a call reserves an aligned range, which was free; an unaligned range is given back, and stays reserved exactly when that fails |
| SleepAllocator.Driver.HoldAddress | csrc/cumem_allocator.cpp:713-728 | frees and reserves again; there is no error exactly when both calls succeed and the hint is followed, and then the same range is reserved and empty; a range elsewhere is given back |
| SleepAllocator.Driver.BackRange | csrc/cumem_allocator.cpp:450-471 | backs a new range exactly when all calls succeed; otherwise gives it back with one call, and the device is as before the reservation if the work was undone and that call succeeds |
| SleepChunks.SizesOfAttempt | csrc/cumem_allocator.cpp:174-203 | the sizes for which `create_and_map` asks are its chunks, in order and as far as it gets, and all of them if all calls succeed |
| SleepInvariant.ReserveKeeps | csrc/cumem_allocator.cpp:375-378 | a new reservation keeps registry and device in agreement |
| SleepInvariant.DetachKeeps | csrc/cumem_allocator.cpp:704-728 | giving up the memory of an awake allocation keeps registry and device in agreement |
| SleepInvariant.AttachKeeps | csrc/cumem_allocator.cpp:794-796 | mapping new memory into a sleeping allocation keeps registry and device in agreement |
| SleepInvariant.RemoveKeeps | csrc/cumem_allocator.cpp:581-583 | giving back an empty reservation with its entry keeps registry and device in agreement |
| SleepInvariant.AwakeByteIsMappedOnce | csrc/cumem_allocator.cpp:184-203 | every byte of an awake allocation is mapped by exactly one mapping of the whole device, to a live handle |
| SleepInvariant.AsleepByteIsNotMapped | csrc/cumem_allocator.cpp:704-728 | a sleeping allocation is reserved at its size and no mapping covers any of its bytes |
| SleepInvariant.LiveHandlesAreThoseAwake | csrc/cumem_allocator.cpp:565-583 | a handle is live exactly when it belongs to an awake allocation, and to only one |
| SleepMode.CuMemAllocator.UnmapOne | csrc/cumem_allocator.cpp:622-741 | succeeds exactly when no error stood and all calls succeed; whatever fails, every chunk is unmapped and every handle released as far as the driver lets it; none of the calls is one it must refuse; on success the address is held by an empty reservation; the error is cleared in any case |
| SleepMode.CuMemAllocator.SleepAwake | vllm/device_allocator/cumem.py:259-276 | succeeds exactly when no error stood and all calls succeed, and then the entry is asleep with its bytes saved if its tag asks for it, and registry and device agree; it is marked asleep unless the copy to the host failed |
| SleepMode.CuMemAllocator.Sleep | vllm/device_allocator/cumem.py:229-294 | makes no call that the driver must refuse; with no error standing it succeeds exactly when all calls succeed; on success every allocation is asleep at its address with its chunks, offloaded or not by its tag, and those asleep before are unchanged |
| SleepMode.CuMemAllocator.MapOne | csrc/cumem_allocator.cpp:743-809 | succeeds exactly when no error stood and all calls succeed, and then new handles of the recorded chunk sizes are mapped into the reservation and the bytes are zero; when it fails and the work was undone, registry and device still agree |
| SleepMode.CuMemAllocator.WakeUp | vllm/device_allocator/cumem.py:327-356 | makes no call that the driver must refuse; with no error standing it succeeds exactly when all calls succeed; on success exactly the allocations with another tag stay asleep, every selected one has its saved bytes or zeros and all others are unchanged, and the creates were those of the chunks of the woken ones; after a failure whose work was undone every entry is unchanged or woken, registry and device agree and the call can be repeated |
| SleepMode.CuMemAllocator.Plan | csrc/cumem_allocator.cpp:366-416 | the rounded size and chunks of a request add up |
| SleepMode.CuMemAllocator.Admit | csrc/cumem_allocator.cpp:346-389 | an aligned free range is reserved, exactly when no error stands afterwards, for the rounded size in chunks of the rounded setting and a last one; nothing is reserved while an error stood before |
| SleepMode.CuMemAllocator.Malloc | csrc/cumem_allocator.cpp:346-474 | succeeds exactly when the reservation and every later call succeed, with zeroed memory at an aligned, unused address and nothing else changed; the creates are of the rounded setting except the last and add up to the rounded request; makes no call that the driver must refuse; fails without effect while an error stands; an entry for the reserved address is left exactly when the reservation succeeded, so that a failed and fully undone mapping leaves registry and device in disagreement |
| SleepMode.CuMemAllocator.Free | csrc/cumem_allocator.cpp:477-594 | the entry is gone; the driver must refuse a call exactly when the size is not the rounded one, and then an error stays and the range remains reserved; no error stands exactly when none stood and all calls succeed, and then registry and device agree, awake or asleep; an unknown address changes nothing |
| SleepMode.CuMemAllocator.AllocateAndFree | csrc/cumem_allocator.cpp:581-583 | freeing with the size that was asked for leaves an error and the reservation unless that size is a multiple of the granularity |
| SleepMode.CuMemAllocator.SleepAndWake | vllm/device_allocator/cumem.py:92-96 | if all calls succeed, sleeping and waking leaves every allocation at its address with its size, its chunks, its tag, and its bytes if its tag was offloaded or zeros if not |
| SleepMode.CuMemAllocator.Run | csrc/cumem_allocator.cpp:346-809 | over every run of allocating, freeing, sleeping and waking: if all driver calls succeed no operation reports an error; as long as none does, registry and device agree, no call was one the driver must refuse, and every allocation that no operation freed is at its address with its size, chunks and tag; only a free can make a call that must be refused |
| GraphPartition.GetSignatures | vllm/env_override.py:198-336 | the backward loop yields, in forward order, the signature that the liveness equations give each partition |
| GraphPartition.SignPartition | vllm/env_override.py:235-334 | one round yields the signature of a partition and what is still needed before it |
| GraphPartitionMeaning.OriginalIsEarlier | vllm/env_override.py:264-266 | a mutated buffer is a graph input or is made before every version of it |
| GraphPartitionMeaning.TouchedIsLocal | vllm/env_override.py:245-266 | whatever a node touches is an input of its partition or made in it |
| GraphPartitionMeaning.UnmetIsFromBefore | vllm/env_override.py:332-334 | a needed name is a real name that no partition from there on makes |
| GraphPartitionMeaning.FreedIsNotUnmet | vllm/env_override.py:268-291 | what a partition frees is not needed by any later one |
| GraphPartitionMeaning.NothingProducedIsUnmet | vllm/env_override.py:332-336 | what is needed before the first partition is made by none |
| GraphPartitionMeaning.UnmetPassesThrough | vllm/env_override.py:293-313 | a name still needed is returned by the partition that makes it or takes it in, and passes by any other unfreed |
| GraphPartitionMeaning.NeededIsHandedOn | vllm/env_override.py:293-334 | a buffer needed by a later partition is returned by its maker, and every partition in between leaves it alone or hands it on |
| GraphPartitionMeaning.PartitionedRunMeansTheSame | vllm/env_override.py:198-336 | the partitioned run completes exactly when no partition is the last user of an unallocated buffer of an earlier one, and then every allocated output has the value of the unpartitioned run |
| GraphPartitionMeaning.TokenGraphFails | vllm/env_override.py:275-280 | a well-formed schedule whose partitioned run fails |
| GraphPartitionExact.SignaturesAreExact | vllm/env_override.py:235-336 | a partition takes in exactly what its nodes access or last use from outside, hands back exactly the allocated buffers it made for others or did not use last, frees exactly the known buffers it uses last and did not make, names exactly the constants its nodes access, and has its own cudagraph flag |
| GraphPartitionExact.LastUsedIsReleased | vllm/env_override.py:268-291 | after a completed partitioned run no buffer is left that was last used outside the partition that made it |
| MemoryPlan.EnclosesUnique | vllm/env_override.py:174-186 | a line has one innermost enclosing subgraph |
| MemoryPlan.TrimIsLongestDeadTail | vllm/env_override.py:166-172 | trimming removes exactly the longest tail of dead planning lines |
| MemoryPlan.TrimKeepsBalance | vllm/env_override.py:166-172 | trimming neither makes nor breaks balanced nesting |
| MemoryPlan.UnbalancedCanSurvive | vllm/env_override.py:183-186 | an unbalanced listing can pass the final assertion |
| MemoryPlan.StackIsNested | vllm/env_override.py:175-185 | each planning state on the stack was opened directly inside the one below it |
| MemoryPlan.PlannedInsideItsSubgraph | vllm/env_override.py:179-182 | in a balanced listing every planning line is planned with the state of its innermost enclosing subgraph |
| MemoryPlan.WrapperCodegen.MemoryPlanReuse | vllm/env_override.py:130-186 | completes exactly when the trimmed listing never looks below the bottom of the stack and ends level; then every planning line is planned as specified and every other line is as it was; balanced listings always complete |
| SelectiveScan.ScanResume | vllm/_xpu_ops.py:797-863 | the scan of a sequence is the scan of its head, then of its tail from the state at the cut |
| SelectiveScan.IdleLane | vllm/_xpu_ops.py:719-743 | a padding lane stays zero |
| SelectiveScan.PadDecayAdd | vllm/_xpu_ops.py:827-845 | the recurrence on padded registers is the padded recurrence |
| SelectiveScan.PadDot | vllm/_xpu_ops.py:847-848 | padding does not change the dot product |
| ScanClosedForm.StateIsClosed | vllm/_xpu_ops.py:809-845 | over exact arithmetic, lane i of the state after n tokens is s0[i] exp(A[i] S(0, n)) plus the sum over j of exp(A[i] S(j + 1, n)) step[j] u[j] B[j][i], where S(a, b) is the sum of the steps from a to b |
| ScanClosedForm.OutputIsClosed | vllm/_xpu_ops.py:819-852 | over exact arithmetic an output is the sum over i of state[i] C[i], plus D u |
| ScanClosedForm.EffectIsClosed | vllm/_xpu_ops.py:809-889 | what a program leaves in the outputs and the last slot is that closed form of the tokens and the state it found, and a gated output times 1 + exp(-z) is the output times z |
| ScanKernel.ScanToken | vllm/_xpu_ops.py:809-861 | storing the output over the input it was computed from disturbs no token that is still to be read |
| ScanKernel.BlockDone | vllm/_xpu_ops.py:873-874 | a chunk that ends where block k ends belongs to block k |
| ScanKernel.StartPosition | vllm/_xpu_ops.py:785-792 | the starting position makes the first chunk end at the end of its block |
| ScanKernel.CheckpointSlot | vllm/_xpu_ops.py:865-889 | the state of chunk c goes to the slot of block first + c, and the next chunk ends at a block boundary again |
| ScanKernel.TaskCovers | vllm/_xpu_ops.py:683-712 | a program covers exactly the positions of its request and channel, and its last checkpoint is of all its tokens, in the slot of its last block or the one it loaded from |
| ScanKernel.ProgramChunks | vllm/_xpu_ops.py:797-889 | the chunk loop writes every output and checkpoints the state after every chunk, and changes nothing else |
| ScanKernel.Program | vllm/_xpu_ops.py:680-900 | one program of the grid has exactly the loop-free effect: outputs of the fold over the gate and delta rows, checkpoints in their slots, everything else unchanged, nothing at all for a null block; over exact arithmetic what it leaves is the closed form |
| ScanCaching.ChunkRequest | vllm/v1/attention/backends/mamba_attn.py:291-321 | the chunks of a request: the first completes a started block, the rest are whole, the last may be short |
| ScanCaching.ComputeChunkMetadata | vllm/v1/attention/backends/mamba_attn.py:265-325 | every request, also one with no new tokens, has its own consecutive chunks, cut as above |
| ScanCaching.BlockOfFirst | vllm/v1/attention/backends/mamba_attn.py:404-412 | the first block index is the number of computed tokens divided by the block size |
| ScanCaching.BlockOfLast | vllm/v1/attention/backends/mamba_attn.py:413-421 | the last block index is the first plus the number of chunks minus one |
| ScanCaching.MetadataIsScheduled | vllm/v1/attention/backends/mamba_attn.py:389-431 | what the kernel reads for a request is a plan cut at the block boundaries of its sequence |
| ScanCaching.ScheduledIsWellChunked | vllm/v1/attention/backends/mamba_attn.py:275-284 | every chunk but the last ends exactly where block first + c ends, and its state goes to that block's slot |
| ScanCaching.CheckpointIsPrefixFold | vllm/_xpu_ops.py:865-889 | the slot of a block holds the fold, from the zero state, of every token of the sequence up to the end of that block, or to the last token for the last chunk |
| ScanCaching.BlockToResumeFrom | vllm/v1/attention/backends/mamba_attn.py:404-421 | a request that has computed up to the end of any chunk, the last one included, looks for its state in the slot that chunk was stored in |
| ScanCaching.ResumeIsExact | vllm/_xpu_ops.py:693-743 | a later request that starts from any checkpoint, at a block boundary or after the last token, writes exactly what one uninterrupted scan of the whole sequence gives for its tokens |
| ScanCaching.ChunkingIsInvisible | vllm/_xpu_ops.py:797-900 | for every well-formed chunking, from any initial state and into any slots, outputs and final state are those of a single chunk |
| ScanGrid.Commute | vllm/_xpu_ops.py:680-900 | two programs that touch different ranges and slots commute |
| ScanGrid.LaunchIsIndependent | vllm/_xpu_ops.py:1151-1152 | different programs of a launch whose requests own different slots are independent |
| ScanGrid.OrderDoesNotMatter | vllm/_xpu_ops.py:1151-1152 | every execution order of an independent grid leaves the same tensors |
| ScanGrid.LaunchOrderDoesNotMatter | vllm/_xpu_ops.py:1151-1152 | any two orders in which the programs of a launch run, each once, leave the same tensors |
| Quantizer.ClampIsNearIff | vllm/_xpu_ops.py:931-935 | rounding and clamping is within one half exactly on the range widened by one half |
| Quantizer.RoundsHalfToEven | vllm/_xpu_ops.py:929-932 | rounding is to the nearest integer and to the even one of two |
| Quantizer.CodesOfWidth | vllm/_xpu_ops.py:918-919 | the codes are all those of the given width, two's complement if symmetric and unsigned if not |
| Quantizer.SymmetricIsAccurate | vllm/_xpu_ops.py:922-926 | symmetric quantization restores every element of every row within half a step |
| Quantizer.SymmetricError | vllm/_xpu_ops.py:922-926 | every element is restored within half of the largest magnitude of the row divided by the largest code, or 0.000005 if that is more |
| Quantizer.SymmetricRangeIsUsed | vllm/_xpu_ops.py:922-926 | an element of largest magnitude gets the largest code of its sign, unless the scale is at its floor |
| Quantizer.AsymmetricIsAccurate | vllm/_xpu_ops.py:927-935 | if they fit, every element is restored within half a step, whatever the conversion does with numbers that do not fit |
| Quantizer.AsymmetricError | vllm/_xpu_ops.py:927-935 | and within half of the row's largest minus its smallest element, divided by the largest code, or 0.000005 if that is more |
| Quantizer.AsymmetricRangeIsUsed | vllm/_xpu_ops.py:927-935 | then the smallest element gets code 0 and the largest the last code or the one before it, unless the scale is at its floor |
| Quantizer.AsymmetricFails | vllm/_xpu_ops.py:927-935 | if the exact zero point is farther out of range than the quantized range is wide, no element is, whatever the conversion does |
| Quantizer.ShiftedIsAccurateIff | vllm/_xpu_ops.py:927-935 | in between, an element is restored exactly when the shift of the zero point keeps it in the widened range |
| Quantizer.AsymmetricIsAccurateIff | vllm/_xpu_ops.py:927-935 | an element is restored within half a step on every platform exactly when the exact zero point of its row and its negation fit 32 bits |
| Quantizer.LargeOffsetFails | vllm/_xpu_ops.py:927-935 | a row on which asymmetric quantization is not accurate on any platform |
| Quantizer.QuantizationIsMonotone | vllm/_xpu_ops.py:931-935 | larger elements never get smaller codes |
| BuildTime.SharesAreConserved | tools/report_build_time_ninja.py:237-256 | the shares of all tasks up to any event add up to the time at least one was running |
| BuildTime.ShareIsBounded | tools/report_build_time_ninja.py:74-89 | a share up to any event is at most the part of the task's interval before it |
| BuildTime.BusyIffNeverIdle | tools/report_build_time_ninja.py:258-259 | the busy time is the elapsed time exactly when some task runs at every moment |
| BuildTime.CollectEvents | tools/report_build_time_ninja.py:207-221 | all starts and stops, the total duration, and the earliest and latest times |
| BuildTime.SortedIsTimeline | tools/report_build_time_ninja.py:223-228 | the sorted events are a timeline in which a task that starts and stops at one moment starts first |
| BuildTime.Sweep | tools/report_build_time_ninja.py:229-256 | the loop finds every start, leaves nothing running, and gives every task its share, exactly when no task ends before it starts |
| BuildTime.SummarizeEntries | tools/report_build_time_ninja.py:198-256 | shares lie between zero and the duration and add up to the busy time, which is the elapsed time exactly when the build was never idle; fails exactly on an empty list and on a task that ends before it starts |
| BuildLog.GroupingIsUnique | tools/report_build_time_ninja.py:133-148 | the grouping of records by command, in order of first appearance, is unique |
| BuildLog.RecordIsListedOnce | tools/report_build_time_ninja.py:144-147 | every record's name is listed under its command, after those of earlier records, and nothing else is listed |
| BuildLog.LineIsRecord | tools/report_build_time_ninja.py:111-123 | every line with five fields is a record, in order, with its milliseconds as seconds |
| BuildLog.RecordIsLine | tools/report_build_time_ninja.py:111-123 | every record is that of such a line |
| BuildLog.ResetIff | tools/report_build_time_ninja.py:124-143 | the reader forgets what it has read exactly when the record cannot belong to the build so far |
| BuildLog.Reset | tools/report_build_time_ninja.py:124-143 | after the two tests the dictionary groups the records of the build that is shown |
| BuildLog.ReadTargets | tools/report_build_time_ninja.py:104-148 | the result groups all records, or those of the build that is shown, with the times of the first record of each command; malformed lines do not matter; another header is refused |
| BuildLog.LastBuildIsShown | tools/report_build_time_ninja.py:124-143 | if the log is divided into builds that each go on as long as they can, the one shown is the last |
| BuildLog.BuildIsShownIff | tools/report_build_time_ninja.py:124-143 | a build at the end of the log is shown whole and alone exactly when its first record does not fit the build shown before |
| BuildLog.BuildCanBeCutShort | tools/report_build_time_ninja.py:133-143 | a build whose first step is not shown |
| Gather.RowHasOneToken | vllm/_custom_ops.py:190-199 | every row up to the total belongs to exactly one token of exactly one request |
| Gather.SlotIsInItsPage | vllm/_custom_ops.py:194-197 | the slot of a position lies in the page that the table names, as far in as the position is in its own page |
| Gather.InPlaceIff | vllm/_custom_ops.py:187-189 | every request is written at its cumulative length exactly when those start at zero and never decrease |
| Gather.CopyRequest | vllm/_custom_ops.py:193-198 | one request's rows are those its pages hold, and no other row changes |
| Gather.GatherContext | vllm/_custom_ops.py:177-199 | every token of every request is in its place and rows beyond the total are untouched |
| Gather.CopiedIsPieces | vllm/_custom_ops.py:198-199 | the destination begins with the pieces of the requests, in order |
| Gather.PieceIsContiguous | vllm/_custom_ops.py:193-198 | when the pages hold the tokens of a sequence, a piece is the contiguous range of it |
| Gather.ContextIsGathered | vllm/_custom_ops.py:177-199 | with cumulative lengths that start at zero and grow, row cu[i] + j of the destination is token starts[i] + j of request i |
| Gather.AdjacentRangesJoin | vllm/_custom_ops.py:190-199 | gathering two adjacent ranges is gathering their union, anywhere in a batch |
| Spinloop.WatchedIffInLine | csrc/spinloop.cpp:91 | a byte is watched exactly when it lies in the line that holds the start of the buffer |
| Spinloop.NoLostWakeup | csrc/spinloop.cpp:93-168 | in every interleaving with writers a buffer in one line never has its condition slept through |
| Spinloop.CrossingBufferLosesWakeup | csrc/spinloop.cpp:91-152 | whenever a qualifying buffer crosses a line some condition is slept through |
| Spinloop.EndsIffDecided | csrc/spinloop.cpp:93-152 | a step ends the loop with true exactly at a callback that finds the condition, with an error exactly when a callback or clock read fails, with false exactly at a clock check past the timeout |
| Spinloop.VerdictWasDecided | csrc/spinloop.cpp:93-152 | in every run that has ended, some step called for just that verdict |
| Spinloop.ClockIsReadOften | csrc/spinloop.cpp:107-124 | at most 15 iterations pass between clock checks, also across a wrap of the counter, and a timeout is reported only once it has passed |
| Spinloop.TimeoutIsBounded | csrc/spinloop.cpp:107-124 | after the timeout has passed the loop ends within 16 rounds |

## Left out

- Argument parsing, reference counts, locks and host allocation in the C++ files: plumbing around the modelled steps.
- Directories: creating parent directories may fail but has no other effect, and nothing deletes a store from outside.
- Direct I/O alignment and power failure: a process may die, the machine may not.
- The CUDA path of the allocator, `discard`, memory pools and `get_current_usage`: a single handle, or the same steps again.
- SleepMode.CuMemAllocator.Malloc: requires that rounding and counting stay within 64 bits; what the sizes and chunks are otherwise, and when the count divides by zero, is in `Chunking`. The early returns for a missing or raising callback and for host allocation are not modelled.
- SleepMode.CuMemAllocator.Sleep: the allocator is not used again after a step that failed; what that step leaves on the device is in `UnmapOne`.
- SleepMode.CuMemAllocator.Run: stops at the first operation that reports an error; calls on a registry entry whose reservation was lost are not modelled.
- SleepAllocator.Driver.CreateAndMap: after a failure of access rights or zeroing the chunks stay mapped, as in the code; freeing the address with them mapped is left to the driver.
- The order of `OrderedSet` arguments, `symbol_inputs` and lists of different lengths in the partition pass.
- Lowering of planned lines and the choice of output names in memory planning.
- ScanCaching.ComputeChunkMetadata: the `seq_idx` output is not modelled.
- Floating-point rounding, the order in which `tl.sum` adds, strides and tensor types. The dot product is a left fold.
- Quantizer.SymmetricIsAccurate: over the reals; rounding of the scale to the input type is not modelled.
- Quantizer.AsymmetricIsAccurateIff: over the reals; negation of a 32-bit number wraps around.
- BuildTime.SummarizeEntries: over the reals, up to the printed report; extension grouping and printing are left out.
- BuildLog.ReadTargets: entries are values rather than objects that the caller goes on to share; times that are not numbers raise and are not modelled.
- Gather.GatherContext: positions outside the table or cache and a destination that is too short raise in the source and are excluded by the precondition.
- Spinloop.NoLostWakeup: the wait's own time limit only makes it wake earlier and is one more reason to wake.
- The rest of the engine: schedulers, model code, kernels in CUDA and the server.
