/**
 * SimpleDistGradAggregator: the object that aggregates the gradient
 * matrices of all nodes once per minibatch. The first call settles a
 * layout (which gradients share one packed buffer, which are reduced on
 * their own, how large the host staging buffers are); every call then
 * packs, reduces, exchanges the header and unpacks, or, in asynchronous
 * mode, swaps in the buffered gradients and launches the next
 * aggregation.
 */
module Aggregator {
  import opened Shapes
  import opened Layout
  import opened Packing
  import opened Collective
  import opened Pipeline
  import opened Reduction
  import Setup
  import HostTransfers
  import HeaderExchange

  /** What the MPI wrapper tells the aggregator about the job. */
  datatype Cluster = Cluster(numProc: nat, myRank: nat, isMainNode: bool)

  /** Every gradient holds zeros. */
  predicate AllZero(values: seq<seq<int>>, infos: seq<GradInfo>)
  {
    Shaped(values, infos) && forall i :: 0 <= i < |infos| ==> values[i] == Zeros(NumElements(infos[i]))
  }

  /**
   * The reduction of every entry of the aggregation list, through the
   * host staging pipeline when data is staged on the host. A
   * configuration that no branch reduces is a logic error and leaves the
   * buffer alone.
   */
  method ReduceStep(a: array<int>, local: seq<seq<int>>, peers: seq<seq<seq<int>>>, infos: seq<GradInfo>,
                    packed: seq<nat>, toAggregate: seq<Slot>, config: Config)
    returns (o: Outcome, reduced: seq<seq<int>>, trace: seq<Event>)
    requires WellFormedLayout(infos, packed, toAggregate, a.Length)
    requires Shaped(local, infos) && NodesShaped(peers, infos)
    requires a[..] == Pack(local, infos, packed)
    modifies a
    ensures o.Fail? <==> SelectBranchChecked(config).Err?
    ensures o.Fail? ==> o.error.LogicError? && a[..] == old(a[..])
    ensures o.Pass? ==>
      && Shaped(reduced, infos) && NodesShaped([local] + peers, infos)
      && IsReducedSum(Unpack(a[..], reduced, infos, packed), [local] + peers, infos)
    ensures o.Pass? ==>
      trace == (if ShouldCopyDataToCPU(config) then Schedule(toAggregate, SlotCounts(infos, a.Length, toAggregate)) else [])
  {
    trace, reduced := [], local;
    var branch := SelectBranchChecked(config);
    if branch.Err? {
      o := Fail(branch.error);
      return;
    }
    if branch.value == HostStaged {
      var waited;
      trace, waited := HostTransfers.RunHostTransfers(infos, a.Length, toAggregate);
    }
    reduced := ReduceEntries(a, local, peers, infos, packed, toAggregate);
    o := Pass;
  }

  /**
   * One aggregation over a settled layout, on the aggregator's buffer;
   * the work of SimpleDistGradAggregator.AggregateGradientsImpl.
   */
  method AggregateStep(buffer: array<int>, infos: seq<GradInfo>, packedIndex: seq<nat>, toAggregate: seq<Slot>,
                       config: Config, cluster: Cluster, values: seq<seq<int>>, header: Header,
                       peers: seq<seq<seq<int>>>, completions: seq<Option<nat>>, broadcast: Header)
    returns (o: Outcome, r: seq<seq<int>>, newHeader: Header, trace: seq<Event>, headersReceived: nat)
    requires WellFormedLayout(infos, packedIndex, toAggregate, buffer.Length)
    requires cluster.myRank < cluster.numProc
    requires Shaped(values, infos) && NodesShaped(peers, infos) && |peers| + 1 == cluster.numProc
    requires header.numSamples == 0 ==> NoSampleStatistics(header)
    modifies buffer
    ensures o.Fail? <==> SelectBranchChecked(config).Err?
    ensures o.Fail? ==> o.error.LogicError? && r == Contribution(values, header) && newHeader == header
    ensures NodesShaped([Contribution(values, header)] + peers, infos)
    ensures o.Pass? ==> newHeader == broadcast && IsReducedSum(r, [Contribution(values, header)] + peers, infos)
    ensures o.Pass? && header.numSamples == 0 ==> IsReducedSum(r, peers, infos)
    ensures o.Pass? ==>
      trace == (if ShouldCopyDataToCPU(config) then Schedule(toAggregate, SlotCounts(infos, buffer.Length, toAggregate)) else [])
    ensures o.Pass? && cluster.isMainNode ==>
      headersReceived == |HeaderExchange.Arrived(completions, cluster.numProc - 1)| &&
      (headersReceived == cluster.numProc - 1 <==> HeaderExchange.AllCompleted(completions, cluster.numProc - 1))
  {
    var local := Prepare(buffer, values, header, infos, packedIndex);
    if cluster.isMainNode {
      var sources := HeaderExchange.PostHeaderReceives(cluster.numProc, cluster.myRank);
    }
    headersReceived := 0;
    var reduced;
    o, reduced, trace := ReduceStep(buffer, local, peers, infos, packedIndex, toAggregate, config);
    if o.Fail? {
      r, newHeader := local, header;
      return;
    }
    if cluster.isMainNode {
      var order;
      headersReceived, order := HeaderExchange.AwaitHeaders(cluster.numProc, completions);
    }
    newHeader := broadcast;
    r := Finish(buffer, values, header, reduced, peers, infos, packedIndex);
  }

  /** The zero-sample rule and the packing of the gradients into the buffer. */
  method Prepare(buffer: array<int>, values: seq<seq<int>>, header: Header, infos: seq<GradInfo>, packedIndex: seq<nat>)
    returns (local: seq<seq<int>>)
    requires Shaped(values, infos) && Indices(packedIndex, |infos|)
    requires buffer.Length == PackedElements(infos, packedIndex)
    modifies buffer
    ensures local == Contribution(values, header) && Shaped(local, infos)
    ensures buffer[..] == Pack(local, infos, packedIndex)
  {
    local := values;
    if header.numSamples == 0 {
      local := ZeroGradients(values);
    }
    ContributionShaped(values, header, infos);
    PackInto(buffer, local, infos, packedIndex);
  }

  /**
   * Unpacking the reduced buffer: every gradient is its sum over the
   * nodes, and a node without samples has added nothing to it.
   */
  method Finish(buffer: array<int>, values: seq<seq<int>>, header: Header, reduced: seq<seq<int>>,
                peers: seq<seq<seq<int>>>, infos: seq<GradInfo>, packedIndex: seq<nat>)
    returns (r: seq<seq<int>>)
    requires Shaped(values, infos) && NodesShaped(peers, infos) && Shaped(reduced, infos)
    requires Indices(packedIndex, |infos|) && buffer.Length == PackedElements(infos, packedIndex)
    requires NodesShaped([Contribution(values, header)] + peers, infos)
    requires IsReducedSum(Unpack(buffer[..], reduced, infos, packedIndex), [Contribution(values, header)] + peers, infos)
    ensures IsReducedSum(r, [Contribution(values, header)] + peers, infos)
    ensures header.numSamples == 0 ==> IsReducedSum(r, peers, infos)
  {
    r := UnpackFrom(buffer, reduced, infos, packedIndex);
    if header.numSamples == 0 {
      ZeroedNodeReducedSum(values, peers, infos, r);
    }
  }

  class SimpleDistGradAggregator {
    const cluster: Cluster
    const useAsync: bool
    const elemSize: nat               // sizeof(ElemType)
    const packThresholdBytes: nat

    var initialized: bool
    var infos: seq<GradInfo>          // shapes of the gradients seen by the first call
    var config: Config                // device and library facts seen by the first call
    var packedIndex: seq<nat>         // m_packedGradientsIndex
    var toAggregate: seq<Slot>        // m_gradientIndexToAggregate
    var buffer: array<int>            // m_aggregationBuffer; length 0 when there is none
    var hostBufferSizes: seq<nat>     // element counts of m_intermediateCPUBuffers
    var recvHeaders: nat              // number of entries of m_recvHeaders
    var bufferedGrads: seq<seq<int>>  // m_bufferedGradients, by gradient position
    var bufferedHeader: Option<Header>
    var pending: bool                 // m_pendingAsyncAggregation.valid()

    function Policy(): PackPolicy
    {
      PackPolicy(useAsync, elemSize, packThresholdBytes)
    }

    /** The fields the first call settles; a later call leaves them alone. */
    ghost function Settled(): (bool, seq<GradInfo>, Config, seq<nat>, seq<Slot>, array<int>, seq<nat>, nat)
      reads this`initialized, this`infos, this`config, this`packedIndex, this`toAggregate, this`buffer,
            this`hostBufferSizes, this`recvHeaders
    {
      (initialized, infos, config, packedIndex, toAggregate, buffer, hostBufferSizes, recvHeaders)
    }

    /** The layout is consistent: empty before the first call, well formed after it. */
    ghost predicate LayoutValid()
      reads this`initialized, this`infos, this`config, this`packedIndex, this`toAggregate, this`buffer,
            this`hostBufferSizes, this`recvHeaders
    {
      && cluster.myRank < cluster.numProc
      && (!initialized ==>
            packedIndex == [] && toAggregate == [] && buffer.Length == 0 && hostBufferSizes == [] && recvHeaders == 0)
      && (initialized ==>
            && WellFormedLayout(infos, packedIndex, toAggregate, buffer.Length)
            && hostBufferSizes == (if ShouldCopyDataToCPU(config) then SlotCounts(infos, buffer.Length, toAggregate) else [])
            && recvHeaders == (if cluster.isMainNode then cluster.numProc - 1 else 0))
    }

    ghost predicate Valid()
      reads this
    {
      && LayoutValid()
      && (pending ==> useAsync && initialized)
      && (!initialized ==> bufferedGrads == [] && bufferedHeader.None?)
      && (initialized ==>
            && (useAsync <==> bufferedHeader.Some?)
            && (useAsync ==> Shaped(bufferedGrads, infos))
            && (!useAsync ==> bufferedGrads == []))
    }

    constructor (cluster: Cluster, useAsync: bool, elemSize: nat, packThresholdBytes: nat)
      requires cluster.myRank < cluster.numProc
      ensures Valid() && !initialized && !pending && fresh(buffer)
      ensures this.cluster == cluster && this.useAsync == useAsync
      ensures this.elemSize == elemSize && this.packThresholdBytes == packThresholdBytes
    {
      this.cluster := cluster;
      this.useAsync := useAsync;
      this.elemSize := elemSize;
      this.packThresholdBytes := packThresholdBytes;
      initialized := false;
      infos := [];
      config := Config(true, false, false);
      packedIndex := [];
      toAggregate := [];
      buffer := new int[0];
      hostBufferSizes := [];
      recvHeaders := 0;
      bufferedGrads := [];
      bufferedHeader := None;
      pending := false;
    }

    /**
     * The first ResetState call. Each gradient goes to the packed list or
     * the aggregation list; the first sparse one fails the call with the
     * lists built so far left in place (the object is not usable after
     * that). Otherwise the layout is settled, the buffered header is
     * created in asynchronous mode, and the main node keeps one receive
     * header per other node.
     */
    method Initialize(grads: seq<GradInfo>, numEvalNodes: nat, cfg: Config, allocOk: bool) returns (o: Outcome)
      requires Valid() && !initialized
      modifies this
      ensures initialized && infos == grads && config == cfg && pending == old(pending)
      ensures buffer == old(buffer) || fresh(buffer)
      ensures o.Fail? <==> exists k: nat :: Setup.FirstSparse(grads, k)
      ensures o.Fail? ==> o.error.RuntimeError?
      ensures forall k: nat :: Setup.FirstSparse(grads, k) ==>
        packedIndex == PackedUpTo(grads, Policy(), k + 1) && toAggregate == LoneUpTo(grads, Policy(), k + 1)
      ensures o.Pass? ==>
        && Valid()
        && Plan(packedIndex, toAggregate, buffer.Length) == ChoosePlan(grads, Policy(), allocOk)
        && bufferedGrads == (if useAsync then Setup.NewBuffers(grads, |grads|) else [])
        && bufferedHeader == (if useAsync then Some(ClearedHeader(numEvalNodes)) else None)
    {
      var packed, lone, size, buffered, sparse := Setup.ScanGradients(grads, Policy());
      if sparse.Some? {
        Install(grads, cfg, packed, lone, buffer, hostBufferSizes, recvHeaders, buffered, bufferedHeader);
        o := Fail(RuntimeError("Gradient aggregation for sparse gradient matrices is currently unsupported!"));
        return;
      }
      var buf, pk, slots, sizes := Setup.ChooseLayout(grads, Policy(), allocOk, ShouldCopyDataToCPU(cfg), packed, lone, size);
      Install(grads, cfg, pk, slots, buf, sizes, if cluster.isMainNode then cluster.numProc - 1 else 0,
              buffered, if useAsync then Some(ClearedHeader(numEvalNodes)) else None);
      o := Pass;
    }

    /** Records the state the first ResetState call has computed. */
    method Install(grads: seq<GradInfo>, cfg: Config, pk: seq<nat>, slots: seq<Slot>, buf: array<int>,
                   sizes: seq<nat>, headers: nat, buffered: seq<seq<int>>, header: Option<Header>)
      modifies this
      ensures initialized && infos == grads && config == cfg && packedIndex == pk && toAggregate == slots
      ensures buffer == buf && hostBufferSizes == sizes && recvHeaders == headers
      ensures bufferedGrads == buffered && bufferedHeader == header && pending == old(pending)
    {
      initialized, infos, config, packedIndex, toAggregate, buffer := true, grads, cfg, pk, slots, buf;
      hostBufferSizes, recvHeaders, bufferedGrads, bufferedHeader := sizes, headers, buffered, header;
    }

    /** Replaces the buffered gradients and header and the pending flag of asynchronous mode. */
    method SetBuffered(grads: seq<seq<int>>, header: Option<Header>, isPending: bool)
      modifies this`bufferedGrads, this`bufferedHeader, this`pending
      ensures bufferedGrads == grads && bufferedHeader == header && pending == isPending
    {
      bufferedGrads, bufferedHeader, pending := grads, header, isPending;
    }

    /**
     * ResetState. The first call settles the layout. A later call with
     * `resetState` zeroes the buffered gradients and clears the buffered
     * header in asynchronous mode, which is a logic error while an
     * aggregation is still pending; nothing else is touched.
     */
    method ResetState(grads: seq<GradInfo>, numEvalNodes: nat, resetState: bool, cfg: Config, allocOk: bool)
      returns (o: Outcome)
      requires Valid()
      requires initialized ==> grads == infos
      modifies this
      ensures initialized && infos == grads && pending == old(pending)
      ensures buffer == old(buffer) || fresh(buffer)
      ensures o.Pass? ==> Valid()
      ensures !old(initialized) ==>
        && config == cfg
        && (o.Fail? <==> exists k: nat :: Setup.FirstSparse(grads, k))
        && (o.Fail? ==> o.error.RuntimeError?)
        && (forall k: nat :: Setup.FirstSparse(grads, k) ==>
              packedIndex == PackedUpTo(grads, Policy(), k + 1) && toAggregate == LoneUpTo(grads, Policy(), k + 1))
        && (o.Pass? ==>
              && Plan(packedIndex, toAggregate, buffer.Length) == ChoosePlan(grads, Policy(), allocOk)
              && (useAsync ==> AllZero(bufferedGrads, grads) && bufferedHeader == Some(ClearedHeader(numEvalNodes))))
      ensures old(initialized) ==> Settled() == old(Settled())
      ensures old(initialized) && o.Fail? ==>
        Valid() && bufferedGrads == old(bufferedGrads) && bufferedHeader == old(bufferedHeader)
      ensures old(initialized) ==>
        && config == old(config)
        && packedIndex == old(packedIndex) && toAggregate == old(toAggregate) && buffer == old(buffer)
        && hostBufferSizes == old(hostBufferSizes) && recvHeaders == old(recvHeaders)
        && (o.Fail? <==> resetState && useAsync && old(pending))
        && (o.Fail? ==> o.error.LogicError?)
        && (o.Pass? && resetState && useAsync ==>
              bufferedGrads == ZeroedLike(old(bufferedGrads)) && bufferedHeader == Some(Cleared(old(bufferedHeader).value)))
        && (o.Pass? && !(resetState && useAsync) ==>
              bufferedGrads == old(bufferedGrads) && bufferedHeader == old(bufferedHeader))
    {
      if !initialized {
        o := Initialize(grads, numEvalNodes, cfg, allocOk);
      } else {
        o := ResetBuffers(resetState);
      }
    }

    /**
     * A later ResetState call: the layout stays; a reset is refused while
     * an asynchronous aggregation is pending and otherwise zeroes the
     * buffered gradients and clears the buffered header.
     */
    method ResetBuffers(resetState: bool) returns (o: Outcome)
      requires Valid() && initialized
      modifies this`bufferedGrads, this`bufferedHeader
      ensures Valid()
      ensures o.Fail? <==> resetState && useAsync && pending
      ensures o.Fail? ==> o.error.LogicError?
      ensures o.Fail? ==> bufferedGrads == old(bufferedGrads) && bufferedHeader == old(bufferedHeader)
      ensures o.Pass? && resetState && useAsync ==>
        bufferedGrads == ZeroedLike(old(bufferedGrads)) && bufferedHeader == Some(Cleared(old(bufferedHeader).value))
      ensures o.Pass? && !(resetState && useAsync) ==>
        bufferedGrads == old(bufferedGrads) && bufferedHeader == old(bufferedHeader)
    {
      if resetState && useAsync {
        if pending {
          o := Fail(LogicError("Unexpected pending async gradient aggregation found when resetting aggregator state!"));
          return;
        }
        var zeroed := ZeroGradients(bufferedGrads);
        ContributionShaped(bufferedGrads, Cleared(bufferedHeader.value), infos);
        bufferedGrads, bufferedHeader := zeroed, Some(Cleared(bufferedHeader.value));
      }
      o := Pass;
    }

    /**
     * AggregateGradientsImpl: zero the gradients of a node without
     * samples, pack, post the header receives on the main node, reduce
     * every entry of the aggregation list (through the host pipeline when
     * data is staged on the host), collect the headers on the main node,
     * take the broadcast header and unpack. A configuration no branch
     * reduces is reported as a logic error before the reduction.
     */
    method AggregateGradientsImpl(values: seq<seq<int>>, header: Header, peers: seq<seq<seq<int>>>,
                                  completions: seq<Option<nat>>, broadcast: Header)
      returns (o: Outcome, r: seq<seq<int>>, newHeader: Header, trace: seq<Event>, headersReceived: nat)
      requires Valid() && initialized
      requires Shaped(values, infos) && NodesShaped(peers, infos) && |peers| + 1 == cluster.numProc
      requires header.numSamples == 0 ==> NoSampleStatistics(header)
      modifies buffer
      ensures o.Fail? <==> SelectBranchChecked(config).Err?
      ensures o.Fail? ==> o.error.LogicError? && r == Contribution(values, header) && newHeader == header
      ensures NodesShaped([Contribution(values, header)] + peers, infos)
      ensures o.Pass? ==> newHeader == broadcast && IsReducedSum(r, [Contribution(values, header)] + peers, infos)
      ensures o.Pass? && header.numSamples == 0 ==> IsReducedSum(r, peers, infos)
      ensures o.Pass? ==> trace == (if ShouldCopyDataToCPU(config) then Schedule(toAggregate, hostBufferSizes) else [])
      ensures o.Pass? && cluster.isMainNode ==>
        headersReceived == |HeaderExchange.Arrived(completions, cluster.numProc - 1)| &&
        (headersReceived == cluster.numProc - 1 <==> HeaderExchange.AllCompleted(completions, cluster.numProc - 1))
    {
      o, r, newHeader, trace, headersReceived :=
        AggregateStep(buffer, infos, packedIndex, toAggregate, config, cluster, values, header, peers, completions, broadcast);
    }

    /**
     * DistributedCheck over the all-gathered minibatch sizes: true exactly
     * when every node reported the same size as node 0.
     */
    method DistributedCheck(minibatchSize: nat, processNum: nat, gathered: seq<nat>) returns (ok: bool)
      requires |gathered| == processNum
      requires cluster.myRank < processNum ==> gathered[cluster.myRank] == minibatchSize
      ensures ok <==> forall j :: 0 <= j < processNum ==> gathered[j] == gathered[0]
      ensures ok && cluster.myRank < processNum ==> forall j :: 0 <= j < processNum ==> gathered[j] == minibatchSize
    {
      var i := 1;
      while i < processNum
        invariant 1 <= i && (processNum > 0 ==> i <= processNum)
        invariant forall j :: 0 <= j < i && j < processNum ==> gathered[j] == gathered[0]
      {
        if gathered[i] != gathered[0] {
          return false;
        }
        i := i + 1;
      }
      return true;
    }

    /**
     * The asynchronous half of AggregateGradients. The aggregation
     * launched by the previous call is complete, so its result already
     * sits in the buffered gradients and header: they are swapped with the
     * caller's, and the next aggregation of the caller's gradients is
     * launched after a reset or when the swapped-in header counts samples.
     */
    method AggregateAsync(values: seq<seq<int>>, header: Header, resetState: bool, peers: seq<seq<seq<int>>>,
                          completions: seq<Option<nat>>, broadcast: Header)
      returns (o: Outcome, ret: bool, newValues: seq<seq<int>>, newHeader: Header)
      requires Valid() && initialized && useAsync
      requires Shaped(values, infos) && NodesShaped(peers, infos) && |peers| + 1 == cluster.numProc
      requires header.numSamples == 0 ==> NoSampleStatistics(header)
      modifies this`bufferedGrads, this`bufferedHeader, this`pending, buffer
      ensures o.Pass? ==> Valid()
      ensures newValues == old(bufferedGrads) && newHeader == old(bufferedHeader).value
      ensures o.Fail? <==> (resetState || newHeader.numSamples != 0) && SelectBranchChecked(config).Err?
      ensures o.Fail? ==>
        o.error.LogicError? && !ret && !pending && bufferedGrads == values && bufferedHeader == Some(header)
      ensures o.Pass? ==> ret == (resetState || newHeader.numSamples != 0) && pending == ret
      ensures o.Pass? && !ret ==> bufferedGrads == values && bufferedHeader == Some(header)
      ensures o.Pass? && ret ==>
        && bufferedHeader == Some(broadcast)
        && NodesShaped([Contribution(values, header)] + peers, infos)
        && IsReducedSum(bufferedGrads, [Contribution(values, header)] + peers, infos)
    {
      newValues, newHeader := bufferedGrads, bufferedHeader.value;
      SetBuffered(values, Some(header), false);
      ret := false;
      o := Pass;
      if resetState || newHeader.numSamples != 0 {
        var o2, aggregated, aggregatedHeader, trace, received :=
          AggregateGradientsImpl(values, header, peers, completions, broadcast);
        if o2.Fail? {
          o := o2;
          return;
        }
        SetBuffered(aggregated, Some(aggregatedHeader), true);
        ret := true;
      }
    }

    /**
     * AggregateGradients. A single node aggregates nothing and reports
     * whether it processed samples. Otherwise the state is reset; in
     * synchronous mode the gradients are aggregated and the result says
     * whether the aggregated header counts any samples; in asynchronous
     * mode the gradients and the header are swapped with the buffered ones
     * and the next aggregation is launched only after a reset or when the
     * swapped-in header counts samples, which is then the result. The call
     * fails when the reset fails (a sparse gradient on the first call, a
     * reset while an aggregation is pending later on), or when an
     * aggregation is to run under a configuration no branch reduces.
     */
    method AggregateGradients(grads: seq<GradInfo>, values: seq<seq<int>>, header: Header, resetState: bool,
                              cfg: Config, allocOk: bool, peers: seq<seq<seq<int>>>,
                              completions: seq<Option<nat>>, broadcast: Header)
      returns (o: Outcome, ret: bool, newValues: seq<seq<int>>, newHeader: Header)
      requires Valid() && Shaped(values, grads)
      requires initialized ==> grads == infos
      requires NodesShaped(peers, grads) && |peers| + 1 == cluster.numProc
      requires header.numSamples == 0 ==> NoSampleStatistics(header)
      modifies this, buffer
      ensures o.Pass? ==> Valid()
      ensures cluster.numProc == 1 ==>
        o == Pass && ret == (header.numSamples != 0) && newValues == values && newHeader == header &&
        unchanged(this) && unchanged(buffer)
      ensures cluster.numProc > 1 ==> initialized && infos == grads
      ensures cluster.numProc > 1 && old(initialized) && useAsync && resetState && old(pending) ==>
        && Valid() && pending == old(pending)
        && bufferedGrads == old(bufferedGrads) && bufferedHeader == old(bufferedHeader)
      ensures buffer == old(buffer) || fresh(buffer)
      ensures old(initialized) ==>
        && packedIndex == old(packedIndex) && toAggregate == old(toAggregate) && buffer == old(buffer)
        && hostBufferSizes == old(hostBufferSizes) && recvHeaders == old(recvHeaders)
      ensures cluster.numProc > 1 && !old(initialized) && !(exists k: nat :: Setup.FirstSparse(grads, k)) ==>
        Plan(packedIndex, toAggregate, buffer.Length) == ChoosePlan(grads, Policy(), allocOk)
      ensures cluster.numProc > 1 ==> config == if old(initialized) then old(config) else cfg
      ensures o.Fail? <==>
        && cluster.numProc > 1
        && (|| (if old(initialized) then resetState && useAsync && old(pending)
                else exists k: nat :: Setup.FirstSparse(grads, k))
            || ((!useAsync || resetState || (old(initialized) && old(bufferedHeader).value.numSamples != 0)) &&
                SelectBranchChecked(config).Err?))
      ensures o.Fail? ==> (o.error.RuntimeError? <==> !old(initialized) && exists k: nat :: Setup.FirstSparse(grads, k))
      ensures cluster.numProc > 1 && o.Pass? && !useAsync ==>
        && newHeader == broadcast && ret == (broadcast.numSamples != 0)
        && NodesShaped([Contribution(values, header)] + peers, grads)
        && IsReducedSum(newValues, [Contribution(values, header)] + peers, grads)
      ensures cluster.numProc > 1 && o.Pass? && useAsync ==>
        && ret == (resetState || newHeader.numSamples != 0)
        && pending == ret
        && (!old(initialized) || resetState ==> newHeader.numSamples == 0 && AllZero(newValues, grads))
        && (old(initialized) && !resetState ==> newValues == old(bufferedGrads) && newHeader == old(bufferedHeader).value)
        && (!ret ==> bufferedGrads == values && bufferedHeader == Some(header))
        && (ret ==> bufferedHeader == Some(broadcast) &&
                    NodesShaped([Contribution(values, header)] + peers, grads) &&
                    IsReducedSum(bufferedGrads, [Contribution(values, header)] + peers, grads))
    {
      if cluster.numProc == 1 {
        return Pass, header.numSamples != 0, values, header;
      }
      if initialized {
        o, ret, newValues, newHeader := LaterRound(grads, values, header, resetState, peers, completions, broadcast);
      } else {
        o, ret, newValues, newHeader := FirstRound(grads, values, header, resetState, cfg, allocOk, peers, completions, broadcast);
      }
    }

    /**
     * AggregateGradients on more than one node, first call: ResetState
     * settles the layout, then the gradients are aggregated (synchronous
     * mode) or swapped with the freshly zeroed buffered ones (asynchronous
     * mode).
     */
    method FirstRound(grads: seq<GradInfo>, values: seq<seq<int>>, header: Header, resetState: bool,
                      cfg: Config, allocOk: bool, peers: seq<seq<seq<int>>>,
                      completions: seq<Option<nat>>, broadcast: Header)
      returns (o: Outcome, ret: bool, newValues: seq<seq<int>>, newHeader: Header)
      requires Valid() && !initialized && Shaped(values, grads)
      requires NodesShaped(peers, grads) && |peers| + 1 == cluster.numProc
      requires header.numSamples == 0 ==> NoSampleStatistics(header)
      modifies this, buffer
      ensures o.Pass? ==> Valid()
      ensures initialized && infos == grads && config == cfg
      ensures buffer == old(buffer) || fresh(buffer)
      ensures !(exists k: nat :: Setup.FirstSparse(grads, k)) ==>
        Plan(packedIndex, toAggregate, buffer.Length) == ChoosePlan(grads, Policy(), allocOk)
      ensures o.Fail? <==> (exists k: nat :: Setup.FirstSparse(grads, k)) || ((!useAsync || resetState) && SelectBranchChecked(cfg).Err?)
      ensures o.Fail? ==> (o.error.RuntimeError? <==> exists k: nat :: Setup.FirstSparse(grads, k))
      ensures o.Pass? && !useAsync ==>
        && newHeader == broadcast && ret == (broadcast.numSamples != 0)
        && NodesShaped([Contribution(values, header)] + peers, grads)
        && IsReducedSum(newValues, [Contribution(values, header)] + peers, grads)
      ensures o.Pass? && useAsync ==>
        && ret == resetState && pending == ret
        && newHeader.numSamples == 0 && AllZero(newValues, grads)
        && (!ret ==> bufferedGrads == values && bufferedHeader == Some(header))
        && (ret ==> bufferedHeader == Some(broadcast) &&
                    NodesShaped([Contribution(values, header)] + peers, grads) &&
                    IsReducedSum(bufferedGrads, [Contribution(values, header)] + peers, grads))
    {
      o := ResetState(grads, |header.evalErrors|, resetState, cfg, allocOk);
      if o.Fail? {
        return o, false, values, header;
      }
      o, ret, newValues, newHeader := AggregateAfterReset(values, header, resetState, peers, completions, broadcast);
    }

    /**
     * AggregateGradients on more than one node, any later call: ResetState
     * keeps the layout and resets the buffered state when asked, then the
     * gradients are aggregated (synchronous mode) or swapped (asynchronous
     * mode). The configuration and allocation outcome of a later call are
     * not looked at.
     */
    method LaterRound(grads: seq<GradInfo>, values: seq<seq<int>>, header: Header, resetState: bool,
                      peers: seq<seq<seq<int>>>, completions: seq<Option<nat>>, broadcast: Header)
      returns (o: Outcome, ret: bool, newValues: seq<seq<int>>, newHeader: Header)
      requires Valid() && initialized && grads == infos && Shaped(values, grads)
      requires NodesShaped(peers, grads) && |peers| + 1 == cluster.numProc
      requires header.numSamples == 0 ==> NoSampleStatistics(header)
      modifies this, buffer
      ensures Settled() == old(Settled())
      ensures o.Pass? ==> Valid()
      ensures useAsync && resetState && old(pending) ==>
        && Valid() && pending == old(pending)
        && bufferedGrads == old(bufferedGrads) && bufferedHeader == old(bufferedHeader)
      ensures o.Fail? <==>
        || (useAsync && resetState && old(pending))
        || ((!useAsync || resetState || old(bufferedHeader).value.numSamples != 0) && SelectBranchChecked(config).Err?)
      ensures o.Fail? ==> o.error.LogicError?
      ensures o.Pass? && !useAsync ==>
        && newHeader == broadcast && ret == (broadcast.numSamples != 0)
        && NodesShaped([Contribution(values, header)] + peers, grads)
        && IsReducedSum(newValues, [Contribution(values, header)] + peers, grads)
      ensures o.Pass? && useAsync ==>
        && ret == (resetState || newHeader.numSamples != 0) && pending == ret
        && (resetState ==> newHeader.numSamples == 0 && AllZero(newValues, grads))
        && (!resetState ==> newValues == old(bufferedGrads) && newHeader == old(bufferedHeader).value)
        && (!ret ==> bufferedGrads == values && bufferedHeader == Some(header))
        && (ret ==> bufferedHeader == Some(broadcast) &&
                    NodesShaped([Contribution(values, header)] + peers, grads) &&
                    IsReducedSum(bufferedGrads, [Contribution(values, header)] + peers, grads))
    {
      o := ResetState(grads, |header.evalErrors|, resetState, config, false);
      if o.Fail? {
        return o, false, values, header;
      }
      o, ret, newValues, newHeader := AggregateAfterReset(values, header, resetState, peers, completions, broadcast);
    }

    /**
     * What AggregateGradients does once ResetState has passed: aggregate
     * (synchronous mode) or swap and maybe launch (asynchronous mode).
     */
    method AggregateAfterReset(values: seq<seq<int>>, header: Header, resetState: bool, peers: seq<seq<seq<int>>>,
                               completions: seq<Option<nat>>, broadcast: Header)
      returns (o: Outcome, ret: bool, newValues: seq<seq<int>>, newHeader: Header)
      requires Valid() && initialized && Shaped(values, infos)
      requires NodesShaped(peers, infos) && |peers| + 1 == cluster.numProc
      requires header.numSamples == 0 ==> NoSampleStatistics(header)
      modifies this`bufferedGrads, this`bufferedHeader, this`pending, buffer
      ensures Settled() == old(Settled())
      ensures o.Pass? ==> Valid()
      ensures o.Fail? <==> (!useAsync || resetState || old(bufferedHeader).value.numSamples != 0) && SelectBranchChecked(config).Err?
      ensures o.Fail? ==> o.error.LogicError?
      ensures o.Pass? && !useAsync ==>
        && newHeader == broadcast && ret == (broadcast.numSamples != 0)
        && NodesShaped([Contribution(values, header)] + peers, infos)
        && IsReducedSum(newValues, [Contribution(values, header)] + peers, infos)
      ensures o.Pass? && useAsync ==>
        && ret == (resetState || newHeader.numSamples != 0) && pending == ret
        && newValues == old(bufferedGrads) && newHeader == old(bufferedHeader).value
        && (!ret ==> bufferedGrads == values && bufferedHeader == Some(header))
        && (ret ==> bufferedHeader == Some(broadcast) &&
                    NodesShaped([Contribution(values, header)] + peers, infos) &&
                    IsReducedSum(bufferedGrads, [Contribution(values, header)] + peers, infos))
    {
      if useAsync {
        o, ret, newValues, newHeader := AggregateAsync(values, header, resetState, peers, completions, broadcast);
      } else {
        var o2, aggregated, aggregatedHeader, trace, received :=
          AggregateGradientsImpl(values, header, peers, completions, broadcast);
        if o2.Fail? {
          return o2, false, values, header;
        }
        o, newValues, newHeader := Pass, aggregated, aggregatedHeader;
        ret := newHeader.numSamples != 0;
      }
    }
  }

  /**
   * Two consecutive AggregateGradients calls on one aggregator, as the
   * training loop makes them. After a first call that passes, the layout is
   * the plan chosen for the first call's gradients, and the second call keeps
   * it whatever configuration and allocation outcome it reports. In
   * synchronous mode the second call sums its own gradients; in
   * asynchronous mode the second call (without a reset) hands back what the
   * first call launched: the sum over all nodes and the broadcast header.
   */
  method ConsecutiveCalls(ag: SimpleDistGradAggregator, grads: seq<GradInfo>,
                          values1: seq<seq<int>>, header1: Header, resetState1: bool, cfg1: Config, allocOk1: bool,
                          peers1: seq<seq<seq<int>>>, completions1: seq<Option<nat>>, broadcast1: Header,
                          values2: seq<seq<int>>, header2: Header, cfg2: Config, allocOk2: bool,
                          peers2: seq<seq<seq<int>>>, completions2: seq<Option<nat>>, broadcast2: Header)
    returns (o1: Outcome, ret1: bool, o2: Outcome, ret2: bool, newValues2: seq<seq<int>>, newHeader2: Header)
    requires ag.Valid() && !ag.initialized && ag.cluster.numProc > 1
    requires Shaped(values1, grads) && NodesShaped(peers1, grads) && |peers1| + 1 == ag.cluster.numProc
    requires Shaped(values2, grads) && NodesShaped(peers2, grads) && |peers2| + 1 == ag.cluster.numProc
    requires header1.numSamples == 0 ==> NoSampleStatistics(header1)
    requires header2.numSamples == 0 ==> NoSampleStatistics(header2)
    modifies ag, ag.buffer
    ensures o1.Pass? ==>
      && ag.initialized && ag.infos == grads && ag.config == cfg1
      && Plan(ag.packedIndex, ag.toAggregate, ag.buffer.Length) == ChoosePlan(grads, ag.Policy(), allocOk1)
    ensures o1.Pass? && !ag.useAsync && o2.Pass? ==>
      newHeader2 == broadcast2 && IsReducedSum(newValues2, [Contribution(values2, header2)] + peers2, grads)
    ensures o1.Pass? && ag.useAsync && ret1 && o2.Pass? ==>
      newHeader2 == broadcast1 && IsReducedSum(newValues2, [Contribution(values1, header1)] + peers1, grads)
  {
    var newValues1, newHeader1;
    o1, ret1, newValues1, newHeader1 :=
      ag.AggregateGradients(grads, values1, header1, resetState1, cfg1, allocOk1, peers1, completions1, broadcast1);
    if o1.Fail? {
      return o1, false, o1, false, values2, header2;
    }
    o2, ret2, newValues2, newHeader2 :=
      ag.AggregateGradients(grads, values2, header2, false, cfg2, allocOk2, peers2, completions2, broadcast2);
  }
}
