# SimpleDistGradAggregator, modelled in Dafny

This project models the sequential bookkeeping of CNTK's
`SimpleDistGradAggregator`. That is the object which, once per minibatch,
sums the gradient matrices of all nodes of a data-parallel training job.
The communication libraries (MPI, NCCL) and CUDA are not modelled. What
remains is a component that plans indices and buffers:

- **Layout, on the first `ResetState` call.** Small gradients are packed
  into one contiguous aggregation buffer. The others are reduced on their
  own. `(size_t)-1` in the aggregation list means "the packed buffer" and
  is modelled as `Slot.PackedBuffer`. When data is staged through the
  host, the host staging buffers are sized here.
- **Packing and unpacking.** Gradients are copied into the buffer at
  running offsets and copied back out after the reduction.
- **Zero-sample rule.** A node that processed no samples zeroes its
  gradients before they are reduced.
- **Host-staged transfer pipeline.** Its three counters decide which host
  buffer is filled, reduced and copied back at each step. The schedule is
  described by the events it issues (`Pipeline.Event`).
- **Header exchange.** The main node maps receive slot `j` to a peer rank
  and stops waiting once every other node has sent its header.
- **`DistributedCheck`.** The gathered minibatch sizes must all agree.
- **`AggregateGradients`.** It runs a synchronous step, or the swap between
  the caller's gradients and the buffered ones in asynchronous mode. Its
  result is whether samples were processed.

The all-reduce is an element-wise integer sum over the nodes
(`Collective.AllReduceSum`). The other nodes' gradients, the order in
which their headers arrive and the header broadcast by the main node are
parameters of the aggregation step. The main property is
`Aggregator.SimpleDistGradAggregator.AggregateGradientsImpl`: after
packing, reducing every entry of the aggregation list and unpacking, every
gradient equals its sum over all nodes. A node without samples contributes
zeros, so the result is then the sum over the other nodes.

The modules follow the program's structure:

| module | file | what it holds |
|---|---|---|
| `Shapes` | shapes.dfy | gradient shapes, aggregation-list entries, the header, errors, the device/library configuration |
| `Layout` | layout.dfy | the partition of the gradient list, the packed offsets, the chosen plan |
| `Packing` | packing.dfy | packing and unpacking as functions, and the round trip |
| `Collective` | collective.dfy | the all-reduce as a sum over nodes |
| `Pipeline` | pipeline.dfy | the event schedule of the host-staged branch and its properties |
| `HeaderExchange` | headers.dfy | the header source ranks and the main node's wait loop |
| `Reduction` | reduction.dfy | the branch choice, zeroing, the buffer loops, the entry-by-entry reduction |
| `Setup` | setup.dfy | the set-up scan over the gradients, the layout choice, the host buffer sizes |
| `HostTransfers` | transfers.dfy | the loop of the host-staged branch with its three counters |
| `Aggregator` | aggregator.dfy | the aggregator class and one aggregation step |

## Model

| member | source | states |
|---|---|---|
| Shapes.NumElements | Source/SGDLib/SimpleDistGradAggregator.h:245-247 | a gradient has no elements exactly when it has no rows or no columns |
| Shapes.ShouldCopyDataToCPU | Source/SGDLib/SimpleDistGradAggregator.h:215-226 | data is staged on the host exactly when it is on a GPU and neither NCCL nor GPUDirect RDMA is usable |
| Shapes.ClearedHeader | Source/SGDLib/SimpleDistGradAggregator.h:297-301 | the buffered header starts with no samples and all statistics zero, with one evaluation-error entry per evaluation node |
| Shapes.Cleared | Source/SGDLib/SimpleDistGradAggregator.h:321 | clearing a header leaves no samples and zero statistics, and keeps the number of evaluation nodes |
| Shapes.Zeros | Source/SGDLib/SimpleDistGradAggregator.h:347-348 | SetValue(0) gives a gradient of the same size holding only zeros |
| Layout.AllGradients | Source/SGDLib/SimpleDistGradAggregator.h:276-279 | the fallback aggregation list is exactly 0, 1, ..., n-1 |
| Layout.SlotCounts | Source/SGDLib/SimpleDistGradAggregator.h:289-294 | one host buffer per aggregation entry, sized by that entry's element count (the packed size for the packed buffer) |
| Layout.PackedUpTo | Source/SGDLib/SimpleDistGradAggregator.h:243-249 | every index on the packed list is one of the gradients scanned so far |
| Layout.PartitionSizes | Source/SGDLib/SimpleDistGradAggregator.h:243-253 | each scanned gradient goes to exactly one of the packed list and the aggregation list, so their lengths add up to the number scanned |
| Layout.PackedUpToIndices | Source/SGDLib/SimpleDistGradAggregator.h:243-249 | the packed list built by the scan holds only indices of gradients already seen |
| Layout.PackedMembership | Source/SGDLib/SimpleDistGradAggregator.h:243-249 | an index is packed if and only if it was scanned and the gradient is packable: synchronous mode and at most the threshold in bytes |
| Layout.PackedIncreasing | Source/SGDLib/SimpleDistGradAggregator.h:243-249 | the packed list is strictly increasing |
| Layout.LoneUpTo | Source/SGDLib/SimpleDistGradAggregator.h:243-253 | the aggregation list the scan builds from the gradients it does not pack; what it holds is stated by Layout.PartitionSizes, Layout.LoneMembership and Layout.LoneIncreasing |
| Layout.LoneMembership | Source/SGDLib/SimpleDistGradAggregator.h:243-253 | a gradient goes to the aggregation list if and only if it was scanned and is not packable; the scan never puts the sentinel there |
| Layout.LoneIncreasing | Source/SGDLib/SimpleDistGradAggregator.h:243-253 | the aggregation list built by the scan is in increasing index order |
| Layout.SentinelBeforeLone | Source/SGDLib/SimpleDistGradAggregator.h:282-285 | putting the packed-buffer sentinel in front of the scanned aggregation list keeps its entries distinct and its gradient entries in index order |
| Layout.ChoosePlan | Source/SGDLib/SimpleDistGradAggregator.h:242-285 | the packed size is the element count of the packed list, which is empty exactly when that size is 0; the aggregation list holds every gradient not packed, plus the sentinel when the packed buffer exists; the buffer exists only if its allocation succeeded |
| Layout.AsyncPacksNothing | Source/SGDLib/SimpleDistGradAggregator.h:245 | in asynchronous mode no gradient is packed |
| Layout.PackingPlanCovers | Source/SGDLib/SimpleDistGradAggregator.h:242-285 | with a packed buffer, every gradient is in exactly one of the two lists, the sentinel comes first and only once, the gradient entries are in index order, and the buffer size is the packed element count |
| Layout.FallbackPlanCovers | Source/SGDLib/SimpleDistGradAggregator.h:264-280 | without a packed buffer, nothing is packed, the packed size is 0 and every gradient is reduced on its own, in index order |
| Layout.PlanCoversEveryGradientOnce | Source/SGDLib/SimpleDistGradAggregator.h:242-285 | for every input the chosen layout partitions the gradients, packs only packable ones, and has a packed buffer exactly when something packable exists and the allocation succeeded |
| Layout.FallbackReducesEachGradient | Source/SGDLib/SimpleDistGradAggregator.h:270-280 | the fallback plan is exactly: no packed list, aggregation list 0..n-1, size 0 |
| Layout.AsyncPlan | Source/SGDLib/SimpleDistGradAggregator.h:245-280 | asynchronous mode always ends in the fallback plan |
| Layout.Offset | Source/SGDLib/SimpleDistGradAggregator.h:361-366 | the running offset at which the k-th packed gradient starts in the packed buffer; its properties are stated by Layout.OffsetOfExtension, Layout.OffsetMonotone, Layout.SlicesDisjoint and Layout.SliceOfPosition |
| Layout.OffsetOfExtension | Source/SGDLib/SimpleDistGradAggregator.h:361-366 | appending to the packed list does not move the offsets of earlier entries |
| Layout.OffsetMonotone | Source/SGDLib/SimpleDistGradAggregator.h:361-366 | running offsets never decrease |
| Layout.SlicesDisjoint | Source/SGDLib/SimpleDistGradAggregator.h:361-366 | the slice of an earlier packed gradient ends before the slice of a later one starts |
| Layout.SliceOfPosition | Source/SGDLib/SimpleDistGradAggregator.h:361-366 | every position of the packed buffer lies in exactly one packed slice, so the slices cover the buffer |
| Packing.PackUpTo | Source/SGDLib/SimpleDistGradAggregator.h:361-366 | after k packed gradients the running offset is their total element count |
| Packing.Pack | Source/SGDLib/SimpleDistGradAggregator.h:360-366 | the packed buffer holds exactly the total element count of the packed gradients, the size allocated for it |
| Packing.UnpackUpTo | Source/SGDLib/SimpleDistGradAggregator.h:635-640 | unpacking keeps every gradient's shape |
| Packing.Unpack | Source/SGDLib/SimpleDistGradAggregator.h:634-640 | the whole unpack loop gives every gradient back a value of its own shape |
| Packing.PackSlice | Source/SGDLib/SimpleDistGradAggregator.h:361-366 | the k-th slice of the packed buffer holds exactly the k-th packed gradient |
| Packing.PackAt | Source/SGDLib/SimpleDistGradAggregator.h:364 | element t of the k-th packed gradient lands at offset_k + t |
| Packing.UnpackLeavesOthers | Source/SGDLib/SimpleDistGradAggregator.h:635-640 | unpacking does not touch a gradient that is not packed |
| Packing.UnpackAt | Source/SGDLib/SimpleDistGradAggregator.h:638 | the k-th packed gradient is read back from exactly the k-th slice |
| Packing.UnpackPackUpTo | Source/SGDLib/SimpleDistGradAggregator.h:635-640 | unpacking any prefix of a freshly packed buffer changes nothing |
| Packing.UnpackPackRoundTrip | Source/SGDLib/SimpleDistGradAggregator.h:635-640 | unpacking the packed buffer with no reduction in between restores every gradient |
| Packing.UnpackKeepsShape | Source/SGDLib/SimpleDistGradAggregator.h:638 | unpacking keeps each gradient's size and leaves non-packed gradients as they were |
| Packing.PackZeros | Source/SGDLib/SimpleDistGradAggregator.h:346-366 | packing zeroed gradients gives a buffer of zeros |
| Collective.AllReduceSum | Source/SGDLib/SimpleDistGradAggregator.h:479 | the all-reduce keeps the buffer length |
| Collective.GradientAcross | Source/SGDLib/SimpleDistGradAggregator.h:479 | one gradient taken from every node, each of its full size |
| Collective.PacksAcross | Source/SGDLib/SimpleDistGradAggregator.h:361-366 | every node's packed buffer, each of the packed size |
| Collective.AllReduceIgnoresZeroedNode | Source/SGDLib/SimpleDistGradAggregator.h:346-348 | a node contributing zeros does not change the sum |
| Collective.AllReduceSingleNode | Source/SGDLib/SimpleDistGradAggregator.h:80-81 | the sum over one node is that node's values, which is why a single node skips aggregation |
| Collective.ColumnSumFront | Source/SGDLib/SimpleDistGradAggregator.h:479 | the sum over this node and the peers is this node's element plus the peers' sum |
| Collective.PackedReductionIsPerGradientSum | Source/SGDLib/SimpleDistGradAggregator.h:361-366 | reducing the packed buffers of all nodes gives, in slice k, the sum of packed gradient k over the nodes |
| Pipeline.DeviceWaits | Source/SGDLib/SimpleDistGradAggregator.h:618-619 | after the loop the copy back of each of the first n host buffers is awaited once, in order |
| Pipeline.StepEvents | Source/SGDLib/SimpleDistGradAggregator.h:456-489 | loop step i first starts the copy of entry i when there is one, then awaits entry i-1 and reduces it with its count; four events, three in the last step |
| Pipeline.LoopTrace | Source/SGDLib/SimpleDistGradAggregator.h:437-489 | the trace of the loop opens with the synchronous copy of the first entry into host buffer 0 |
| Pipeline.Schedule | Source/SGDLib/SimpleDistGradAggregator.h:437-619 | the whole host-staged schedule issues five events per aggregation entry |
| Pipeline.Reductions | Source/SGDLib/SimpleDistGradAggregator.h:478-479 | the reduction events of a trace |
| Pipeline.EventsOn | Source/SGDLib/SimpleDistGradAggregator.h:456-489 | the events of a trace that use one host buffer |
| Pipeline.LoopReductions | Source/SGDLib/SimpleDistGradAggregator.h:456-489 | after step i of the loop, entries 0..i-1 have each been reduced once, in order, each with its own count |
| Pipeline.DeviceWaitsReduceNothing | Source/SGDLib/SimpleDistGradAggregator.h:618-619 | the final waits reduce nothing |
| Pipeline.ScheduleReducesEachEntryOnceInOrder | Source/SGDLib/SimpleDistGradAggregator.h:437-489 | every entry of the aggregation list is reduced exactly once, in list order, in host buffer k, with the element count of entry k |
| Pipeline.LifecycleSoFarStep | Source/SGDLib/SimpleDistGradAggregator.h:456-489 | what one more loop step does to a host buffer extends that buffer's life so far by exactly the next stage |
| Pipeline.LoopEventsOn | Source/SGDLib/SimpleDistGradAggregator.h:456-489 | after step i, each host buffer has gone through the prefix of its life up to step i |
| Pipeline.ScheduleBufferLifecycle | Source/SGDLib/SimpleDistGradAggregator.h:437-619 | each host buffer is filled, awaited, reduced, copied back and awaited, in that order and once each; no other buffer is used |
| Pipeline.LoopTraceLength | Source/SGDLib/SimpleDistGradAggregator.h:456-489 | each loop step issues four events, the last one three |
| Pipeline.ScheduleOverlaps | Source/SGDLib/SimpleDistGradAggregator.h:459-479 | the copy of entry k+1 to the host is started before entry k is awaited and reduced |
| Pipeline.ScheduleUsesOnlyListedBuffers | Source/SGDLib/SimpleDistGradAggregator.h:437-489 | every event of the schedule uses one of the host buffers of the aggregation list and belongs to that buffer's life |
| HostTransfers.RunHostTransfers | Source/SGDLib/SimpleDistGradAggregator.h:412-489 | the loop with its counters issues exactly the schedule; on step i, gpuToCpuIndex is i and allReduceIndex is i-1; afterwards allReduceIndex is the list length; every copy to the host has its entry's count |
| HeaderExchange.HeaderSource | Source/SGDLib/SimpleDistGradAggregator.h:388 | slot j receives from rank j or rank j+1, never from the receiver's own rank |
| HeaderExchange.HeaderSourcesAreTheOtherRanks | Source/SGDLib/SimpleDistGradAggregator.h:386-388 | the receive sources are distinct ranks below NumProc other than MyRank, and every other rank is one of them |
| HeaderExchange.SlotOfRankInvertsHeaderSource | Source/SGDLib/SimpleDistGradAggregator.h:388 | the source formula is a bijection from slots onto the other ranks, with its inverse |
| HeaderExchange.PostHeaderReceives | Source/SGDLib/SimpleDistGradAggregator.h:383-392 | the loop posts NumProc-1 receives from distinct ranks other than MyRank, covering every other rank |
| HeaderExchange.ArrivedPrefix | Source/SGDLib/SimpleDistGradAggregator.h:553-566 | while every wait so far has completed, the headers counted are exactly those, in arrival order |
| HeaderExchange.ArrivedAtMost | Source/SGDLib/SimpleDistGradAggregator.h:553-568 | at most NumProc-1 headers are counted; exactly that many if and only if no wait in between reported MPI_UNDEFINED |
| HeaderExchange.AwaitHeaders | Source/SGDLib/SimpleDistGradAggregator.h:551-568 | the wait loop counts the headers that arrive, in order, at most NumProc-1, and reaches NumProc-1 exactly when every wait completed |
| Reduction.SelectBranch | Source/SGDLib/SimpleDistGradAggregator.h:426-545 | the branch tests as written, each branch characterised exactly: host staging when ShouldCopyDataToCPU holds, NCCL when it is supported, non-blocking MPI for CPU data without GPUDirect RDMA, blocking MPI for GPU data with GPUDirect RDMA, and no reduction for CPU data with GPUDirect RDMA and no NCCL |
| Reduction.GdrOnCpuSkipsReduction | Source/SGDLib/SimpleDistGradAggregator.h:492-517 | as written, CPU data with GPUDirect RDMA and no NCCL selects no branch; the buffer keeps this node's packed gradients, unpacking hands back this node's own gradients, and these are not the sum over the nodes once the peers' gradients do not sum to zero at some element |
| Reduction.SelectBranchChecked | Source/SGDLib/SimpleDistGradAggregator.h:872-877 | the corrected choice: that configuration is a logic error, and every other configuration gets the as-written branch, which reduces |
| Reduction.ZeroedLike | Source/SGDLib/SimpleDistGradAggregator.h:347-348 | every gradient zeroed, each keeping its size |
| Reduction.Contribution | Source/SGDLib/SimpleDistGradAggregator.h:339-348 | a node contributes zeros of its gradients' sizes when it processed no samples, and its gradients unchanged otherwise |
| Reduction.ContributionShaped | Source/SGDLib/SimpleDistGradAggregator.h:339-348 | a node's contribution has the gradients' shapes; it is the gradients themselves when samples were processed |
| Reduction.ZeroGradients | Source/SGDLib/SimpleDistGradAggregator.h:346-348 | the zeroing loop sets every element of every gradient to 0 and keeps the sizes |
| Reduction.CopyInto | Source/SGDLib/SimpleDistGradAggregator.h:499-515 | the in-place all-reduce result replaces the whole packed buffer |
| Reduction.AssignSlice | Source/SGDLib/SimpleDistGradAggregator.h:364 | writing a column slice changes that slice and nothing else |
| Reduction.PacksAcrossCons | Source/SGDLib/SimpleDistGradAggregator.h:361-366 | the packed buffers of all nodes are this node's followed by the peers' |
| Reduction.GradientAcrossCons | Source/SGDLib/SimpleDistGradAggregator.h:479 | a gradient across all nodes is this node's followed by the peers' |
| Reduction.ZeroedNodeAddsNothing | Source/SGDLib/SimpleDistGradAggregator.h:339-348 | with zeroed gradients, this node adds nothing to any gradient's sum |
| Reduction.ReducedLayoutGivesPerGradientSum | Source/SGDLib/SimpleDistGradAggregator.h:634-640 | once the entries of a well-formed layout are reduced, unpacking gives every gradient its sum over the nodes |
| Reduction.PackInto | Source/SGDLib/SimpleDistGradAggregator.h:360-366 | the pack loop leaves the buffer equal to the packing of the gradients at their running offsets |
| Reduction.UnpackFrom | Source/SGDLib/SimpleDistGradAggregator.h:634-640 | the unpack loop gives each packed gradient its slice of the buffer and leaves the others alone |
| Reduction.ReduceEntry | Source/SGDLib/SimpleDistGradAggregator.h:499-515 | reducing one aggregation entry, the packed buffer or one gradient, extends the set of entries whose sums are in place |
| Reduction.ReduceEntries | Source/SGDLib/SimpleDistGradAggregator.h:499-515 | after reducing every entry, each aggregated gradient is its sum, the others are untouched, the buffer is the sum of the packed buffers, and unpacking gives every gradient its sum |
| Reduction.AllEntriesReduced | Source/SGDLib/SimpleDistGradAggregator.h:499-515 | once every entry of a well-formed layout has had its turn, the buffer is the sum of all nodes' packed buffers and unpacking gives every gradient its sum over the nodes |
| Reduction.ZeroedNodeReducedSum | Source/SGDLib/SimpleDistGradAggregator.h:339-348 | if the sum over all nodes includes this node's zeros, it is the sum over the peers |
| Setup.FirstSparse | Source/SGDLib/SimpleDistGradAggregator.h:255-257 | the gradient the scan fails at is the lowest-indexed sparse one |
| Setup.NewBuffers | Source/SGDLib/SimpleDistGradAggregator.h:259-260 | one zero buffered gradient per gradient seen, of its shape |
| Setup.ScanStep | Source/SGDLib/SimpleDistGradAggregator.h:245-253 | one step of the scan appends the index to the list its policy selects and updates the packed size |
| Setup.ScanGradients | Source/SGDLib/SimpleDistGradAggregator.h:242-261 | the scan stops at the first sparse gradient, with that index already placed, or partitions every gradient; it creates buffered gradients only in asynchronous mode |
| Setup.ChooseLayout | Source/SGDLib/SimpleDistGradAggregator.h:263-295 | the layout is the chosen plan, well formed, and has host buffers exactly when data is staged on the host |
| Setup.HostBufferSizes | Source/SGDLib/SimpleDistGradAggregator.h:289-294 | the sizing loop gives one host buffer per aggregation entry, with that entry's count |
| Aggregator.ReduceStep | Source/SGDLib/SimpleDistGradAggregator.h:409-545 | a configuration no branch handles is a logic error that leaves the buffer alone; otherwise every entry is reduced and the trace is the host schedule exactly when data is staged on the host |
| Aggregator.Prepare | Source/SGDLib/SimpleDistGradAggregator.h:339-366 | the gradients are zeroed when no samples were processed, then packed into the buffer |
| Aggregator.Finish | Source/SGDLib/SimpleDistGradAggregator.h:634-640 | after unpacking every gradient is its sum over the nodes, and over the peers when this node had no samples |
| Aggregator.AggregateStep | Source/SGDLib/SimpleDistGradAggregator.h:326-675 | one aggregation on a settled layout: the reduced sums, the broadcast header, the host schedule and the headers counted on the main node |
| Aggregator.SimpleDistGradAggregator.constructor | Source/SGDLib/SimpleDistGradAggregator.h:63-66 | not initialised, nothing pending, settings recorded, and the (empty) aggregation buffer is a new array |
| Aggregator.SimpleDistGradAggregator.Initialize | Source/SGDLib/SimpleDistGradAggregator.h:231-308 | the first call fails with a runtime error exactly when some gradient is sparse, with the lists built up to it; otherwise the layout is the chosen plan, host buffers and receive headers are sized, and the buffered state is set up in asynchronous mode |
| Aggregator.SimpleDistGradAggregator.Install | Source/SGDLib/SimpleDistGradAggregator.h:231-308 | the fields take the layout and buffered state the first call computed |
| Aggregator.SimpleDistGradAggregator.SetBuffered | Source/SGDLib/SimpleDistGradAggregator.h:146-153 | the buffered gradients, buffered header and pending flag take the given values and nothing else changes |
| Aggregator.SimpleDistGradAggregator.ResetState | Source/SGDLib/SimpleDistGradAggregator.h:228-324 | set-up runs only on the first call; a later call keeps the layout, and with a reset in asynchronous mode it fails when an aggregation is pending and otherwise zeroes the buffered gradients and clears the buffered header; a refused reset leaves the buffered gradients, header and pending flag as they were and the object valid |
| Aggregator.SimpleDistGradAggregator.ResetBuffers | Source/SGDLib/SimpleDistGradAggregator.h:309-323 | a reset is a logic error exactly when asynchronous and pending; otherwise it zeroes the buffered gradients and clears the buffered header in asynchronous mode, and changes nothing else; the object stays valid in every case, and a refused reset changes nothing |
| Aggregator.SimpleDistGradAggregator.AggregateGradientsImpl | Source/SGDLib/SimpleDistGradAggregator.h:326-675 | logic error exactly for the configuration no branch reduces; otherwise every gradient is its sum over all nodes, or over the peers when this node had no samples, the header is the broadcast one, the host schedule is the one above, and the main node counts NumProc-1 headers exactly when all arrive |
| Aggregator.SimpleDistGradAggregator.DistributedCheck | Source/SGDLib/SimpleDistGradAggregator.h:677-691 | true if and only if every gathered size equals the first; then all equal this node's minibatch size |
| Aggregator.SimpleDistGradAggregator.AggregateAsync | Source/SGDLib/SimpleDistGradAggregator.h:104-194 | the caller gets the previously buffered gradients and header; the next aggregation is launched, and true returned, exactly after a reset or when the swapped-in header counts samples; the launched result is the reduced sum; the call fails with a logic error exactly when it launches under the configuration no branch reduces, leaving the caller's gradients buffered and nothing pending |
| Aggregator.SimpleDistGradAggregator.AggregateGradients | Source/SGDLib/SimpleDistGradAggregator.h:78-201 | a single node does nothing and returns numSamples != 0; otherwise the call fails exactly when the reset fails (a sparse gradient on the first call, a runtime error; a reset while pending later, a logic error) or when an aggregation runs, synchronously or by an asynchronous launch, under the configuration no branch reduces; in synchronous mode the gradients become their sums and the result is whether the broadcast header counts samples; in asynchronous mode the result is resetState or the swapped-in header's numSamples != 0, and the first call or a reset hands back zeros; afterwards the object holds the first call's gradient shapes, configuration and layout (the plan chosen for them), a later call leaves all of these and the buffer alone, and the buffer is the old or a new array; a reset refused while an aggregation is pending leaves the buffered gradients, header and pending flag unchanged and the object valid |
| Aggregator.SimpleDistGradAggregator.FirstRound | Source/SGDLib/SimpleDistGradAggregator.h:86-200 | the first call on several nodes: the gradient shapes and the configuration become the object's, the layout is the plan chosen for these gradients, the aggregation buffer is the old or a new array; the call fails exactly on a sparse gradient (runtime error) or when an aggregation runs under the configuration no branch reduces; in asynchronous mode it hands back zeros and launches exactly after a reset |
| Aggregator.SimpleDistGradAggregator.LaterRound | Source/SGDLib/SimpleDistGradAggregator.h:86-200 | any later call on several nodes: the shapes, configuration, layout, buffer and host buffer sizes stay as they were; the call fails exactly on a reset while an aggregation is pending or when an aggregation runs under the configuration no branch reduces; in asynchronous mode it hands back the buffered result, or zeros after a reset; a reset refused while pending leaves the buffered gradients, header and pending flag unchanged and the object valid |
| Aggregator.SimpleDistGradAggregator.AggregateAfterReset | Source/SGDLib/SimpleDistGradAggregator.h:89-200 | after the reset, and touching only the buffered state and the buffer's contents: synchronous mode aggregates and returns whether the broadcast header counts samples; asynchronous mode swaps and launches exactly after a reset or when the swapped-in header counts samples; it fails exactly when an aggregation runs under the configuration no branch reduces |
| Aggregator.ConsecutiveCalls | Source/SGDLib/SimpleDistGradAggregator.h:77-200 | two calls in a row: after a first call that passes, the layout is the plan chosen for the first call's gradients and survives the second call whatever it reports; a synchronous second call sums its own gradients; an asynchronous second call hands back the sum the first call launched and its broadcast header |

## Left out

- MPI and NCCL (`Irecv`, `Isend`, `Waitany`, `Bcast`, `AllReduce`, `Iallreduce`, `Wait`, `NcclComm`): these are network calls. The all-reduce is an integer sum over the nodes. The other nodes' gradients, the `Waitany` results (`None` for `MPI_UNDEFINED`) and the header broadcast by the main node are parameters.
- CUDA and device plumbing (`cudaMemcpy`, `GPUDataTransferer`, `CUDAPageLockedMemAllocator`, `MatrixComputeStreamEvent`, the device id): this is I/O with GPU memory. The host-staged branch is modelled by the events it issues, and its host buffers by their sizes.
- Whether the packed buffer's `new (std::nothrow)` allocation succeeds is the parameter `allocOk`. Whether the data is on the CPU, whether NCCL is supported and whether GPUDirect RDMA is used are the `Config` given to the first call. They are taken as fixed afterwards.
- `DistributedInit`, `DistributedAllGather` and `DistributedAllReduce` only choose which library call to make. The logic-error branch of `DistributedAllReduce` is used only as the reference for the finding below.
- Aggregator.ReduceStep, Aggregator.SimpleDistGradAggregator.AggregateGradientsImpl, Aggregator.SimpleDistGradAggregator.AggregateAsync, Aggregator.SimpleDistGradAggregator.AggregateGradients, Aggregator.SimpleDistGradAggregator.FirstRound, Aggregator.SimpleDistGradAggregator.LaterRound, Aggregator.SimpleDistGradAggregator.AggregateAfterReset and Aggregator.ConsecutiveCalls follow the corrected branch choice `Reduction.SelectBranchChecked` of the finding below: for data on the CPU with GPUDirect RDMA on and no NCCL they fail with a logic error. As written (lines 492-517 and 600-640), that configuration reduces nothing and raises no error. This node's own gradients, after the zero-sample rule, are handed back, together with the broadcast header and the result `numSamples != 0`. Only `Reduction.GdrOnCpuSkipsReduction` exhibits that as-written behaviour.
- The `__PROFILE__` timers, logging, `m_syncStatsTrace`, `m_iterationCount` and the perf-stats timer are profiling with no effect on results.
- Floating point: element values, the criterion and the evaluation errors are integers.
- `DistGradHeader::Aggregate`, `Create`, `Clear` and `Size` are not part of this model. `Clear` is taken to zero every count and keep the number of evaluation nodes. The main node's folding of the received headers is not modelled: the result header is the broadcast parameter.
- Source/SGDLib/IDistGradAggregator.h is not part of this model. `NumProc`, `MyRank` and `IsMainNode` are the fields of `Aggregator.Cluster`. `NumNodesInUse` (line 80) is taken to be `NumProc`.
- The debug `assert`s at lines 341-344 become a precondition of the aggregation step: a header with no samples has zero statistics. The assert at line 568 is stated as the condition under which it holds (`HeaderExchange.AwaitHeaders`).
- Aggregator.SimpleDistGradAggregator.AggregateGradients: the asynchronous aggregation runs on another thread in the source. Here it is computed when it is launched and stored in the buffered fields, so thread overlap and the `std::future` are not modelled beyond the `pending` flag.
- Aggregator.SimpleDistGradAggregator.AggregateAsync: in the source a logic error of the launched aggregation is stored in the `std::future` and thrown by the wait of the next call (line 110). Here the launching call reports it.
- Aggregator.SimpleDistGradAggregator.AggregateGradients: the zeros handed back by the first asynchronous call rest on the assumption about new buffered matrices stated for Setup.NewBuffers below.
- Aggregator.SimpleDistGradAggregator.AggregateGradients: the buffered gradients are kept by gradient position rather than in a map keyed by matrix pointer. The "no buffered gradient matrix" logic error (line 143) cannot arise, because the shapes are checked by the precondition that the caller passes the gradients of the first call.
- Aggregator.SimpleDistGradAggregator.Initialize: after the sparse-gradient runtime error the source leaves the object half initialised. The model describes that state but promises nothing about later calls, which require a valid object.
- Setup.NewBuffers: a newly created buffered matrix is taken to hold zeros. The source allocates it without setting a value.
- Aggregator.SimpleDistGradAggregator.DistributedCheck: the `AllGather` of the minibatch sizes (line 680) is the parameter `gathered`, the sizes every node contributed.
- An empty gradient list: the source reads the device of `gradients[0]` (lines 168, 234 and 329), which is undefined for an empty list. The model accepts an empty list and aggregates nothing.
- Sizes and indices are unbounded integers. The `size_t` products and sums of the source (`sizeof(ElemType) * GetNumElements()` at line 245, the packed size at line 247, `NumProc() - 1`) are taken not to wrap around.
- Every node is taken to have the same layout and gradient shapes as this one. The sum is formed over those shapes.
- The MPI send of a non-main node's header (lines 394-397), and the final wait for it (lines 655-657), carry no state of the model.
- Source/Dynamite/Tests.cpp and Examples/LanguageUnderstanding/ATIS/Python/LanguageUnderstanding.py are not part of this model: they call the framework and contain no aggregator logic.

## Findings

| source | as written | input that shows it | evidently intended | confidence | as-written member | corrected member |
|---|---|---|---|---|---|---|
| Source/SGDLib/SimpleDistGradAggregator.h:492-517 | branch 2 reduces with `Iallreduce` when GPUDirect RDMA is off, and with `AllReduce` when it is on and the data is on a GPU; with GPUDirect RDMA on, data on the CPU and no NCCL, neither test holds and no entry is reduced | `deviceIsCpu = true, useGpuGdr = true, ncclSupported = false`, one gradient of one element, this node and one peer each holding 1: unpacking the unreduced buffer gives this node 1 instead of 2 | report a logic error for that combination, as the sibling `DistributedAllReduce` does at lines 876-877 | not executed | Reduction.GdrOnCpuSkipsReduction | Reduction.SelectBranchChecked |
