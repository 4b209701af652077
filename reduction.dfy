/**
 * The pieces of one aggregation step that do not depend on the
 * aggregator's state: which reduction branch the configuration selects,
 * the zero-sample rule, writing whole and partial buffers, and the fact
 * that reducing the aggregation list entry by entry and unpacking the
 * packed buffer leaves every gradient equal to its sum over the nodes.
 */
module Reduction {
  import opened Shapes
  import opened Layout
  import opened Packing
  import opened Collective

  /** The branch of the reduction step of AggregateGradientsImpl. */
  datatype Branch =
    | HostStaged      // GPU data, no GPUDirect RDMA, no NCCL: staged through host buffers
    | NonBlockingMpi  // CPU data, no GPUDirect RDMA, no NCCL: in-place MPI_Iallreduce
    | GdrMpi          // GPU data with GPUDirect RDMA, no NCCL: blocking all-reduce
    | Nccl            // NCCL all-reduce of every entry
    | NoReduction     // CPU data with GPUDirect RDMA set and no NCCL: no branch reduces

  /**
   * The branch selection as written. The flag tests nest so that data on
   * the CPU with GPUDirect RDMA set falls through every inner test and no
   * entry is reduced.
   */
  function SelectBranch(c: Config): (r: Branch)
    ensures r == HostStaged <==> ShouldCopyDataToCPU(c)
    ensures r == Nccl <==> c.ncclSupported
    ensures r == NonBlockingMpi <==> c.deviceIsCpu && !c.useGpuGdr && !c.ncclSupported
    ensures r == GdrMpi <==> !c.deviceIsCpu && c.useGpuGdr && !c.ncclSupported
    ensures r == NoReduction <==> c.deviceIsCpu && c.useGpuGdr && !c.ncclSupported
  {
    if !c.useGpuGdr && !c.deviceIsCpu && !c.ncclSupported then HostStaged
    else if !c.ncclSupported then
      (if !c.useGpuGdr then NonBlockingMpi
       else if !c.deviceIsCpu then GdrMpi
       else NoReduction)
    else Nccl
  }

  /**
   * The configuration that the selection as written lets through without
   * reducing anything. No entry is reduced, so the packed buffer still
   * holds this node's packed gradients and unpacking it hands back this
   * node's own gradients; as soon as the other nodes' gradients do not sum
   * to zero at some element, that is not the sum over the nodes.
   */
  lemma GdrOnCpuSkipsReduction(local: seq<seq<int>>, peers: seq<seq<seq<int>>>, infos: seq<GradInfo>,
                               packed: seq<nat>, i: nat, t: nat)
    requires Shaped(local, infos) && NodesShaped(peers, infos) && Indices(packed, |infos|)
    requires i < |infos| && t < NumElements(infos[i])
    requires AllReduceSum(GradientAcross(peers, infos, i), NumElements(infos[i]))[t] != 0
    ensures SelectBranch(Config(deviceIsCpu := true, ncclSupported := false, useGpuGdr := true)) == NoReduction
    ensures Unpack(Pack(local, infos, packed), local, infos, packed) == local
    ensures NodesShaped([local] + peers, infos)
    ensures !IsReducedSum(local, [local] + peers, infos)
  {
    UnpackPackRoundTrip(local, infos, packed);
    GradientAcrossCons(local, peers, infos, i);
    var others := GradientAcross(peers, infos, i);
    ColumnSumFront(local[i], others, t);
    assert AllReduceSum([local[i]] + others, NumElements(infos[i]))[t] != local[i][t];
  }

  /**
   * The selection as the sibling reduction routine does it: the
   * combination that no branch handles is a logic error instead of a
   * silent skip.
   */
  function SelectBranchChecked(c: Config): (r: Result<Branch>)
    ensures r.Err? <==> c.deviceIsCpu && c.useGpuGdr && !c.ncclSupported
    ensures r.Err? ==> r.error.LogicError?
    ensures r.Ok? ==> r.value == SelectBranch(c) && r.value != NoReduction
  {
    var b := SelectBranch(c);
    if b == NoReduction then Err(LogicError("no reduction branch for GPUDirect RDMA with data on the CPU"))
    else Ok(b)
  }

  /** Every gradient after SetValue(0). */
  function ZeroedLike(values: seq<seq<int>>): (r: seq<seq<int>>)
    ensures |r| == |values|
    ensures forall i :: 0 <= i < |r| ==> r[i] == Zeros(|values[i]|)
  {
    seq(|values|, i requires 0 <= i < |values| => Zeros(|values[i]|))
  }

  /**
   * What a node contributes to the reduction: its gradients, or zeros
   * when its header says it processed no samples.
   */
  function Contribution(values: seq<seq<int>>, h: Header): (r: seq<seq<int>>)
    ensures |r| == |values|
    ensures h.numSamples == 0 ==> forall i :: 0 <= i < |r| ==> r[i] == Zeros(|values[i]|)
    ensures h.numSamples != 0 ==> r == values
  {
    if h.numSamples == 0 then ZeroedLike(values) else values
  }

  lemma ContributionShaped(values: seq<seq<int>>, h: Header, infos: seq<GradInfo>)
    requires Shaped(values, infos)
    ensures Shaped(Contribution(values, h), infos)
    ensures h.numSamples != 0 ==> Contribution(values, h) == values
  {
  }

  /** The zero-sample loop: SetValue(0) on every gradient in turn. */
  method ZeroGradients(values: seq<seq<int>>) returns (r: seq<seq<int>>)
    ensures |r| == |values|
    ensures forall i :: 0 <= i < |r| ==> |r[i]| == |values[i]| && forall t :: 0 <= t < |r[i]| ==> r[i][t] == 0
    ensures r == ZeroedLike(values)
  {
    r := values;
    var i := 0;
    while i < |values|
      invariant 0 <= i <= |values| && |r| == |values|
      invariant forall j :: 0 <= j < i ==> r[j] == Zeros(|values[j]|)
      invariant forall j :: i <= j < |values| ==> r[j] == values[j]
    {
      r := r[i := Zeros(|values[i]|)];
      i := i + 1;
    }
  }

  /** The in-place all-reduce of the packed buffer: its result replaces the whole buffer. */
  method CopyInto(a: array<int>, s: seq<int>)
    requires a.Length == |s|
    modifies a
    ensures a[..] == s
  {
    var t := 0;
    while t < a.Length
      invariant 0 <= t <= a.Length
      invariant a[..t] == s[..t]
    {
      a[t] := s[t];
      t := t + 1;
      assert a[..t] == a[..t - 1] + [a[t - 1]];
    }
    assert a[..] == a[..a.Length];
  }

  /** ColumnSlice(offset, |s|).AssignValuesOf(s): write s at offset, nothing else. */
  method AssignSlice(a: array<int>, offset: nat, s: seq<int>)
    requires offset + |s| <= a.Length
    modifies a
    ensures a[..] == old(a[..offset]) + s + old(a[offset + |s|..])
  {
    ghost var before := a[..];
    var t := 0;
    while t < |s|
      invariant 0 <= t <= |s|
      invariant forall q :: 0 <= q < a.Length ==>
        a[q] == if offset <= q < offset + t then s[q - offset] else before[q]
    {
      a[offset + t] := s[t];
      t := t + 1;
    }
    assert a[..] == before[..offset] + s + before[offset + |s|..];
  }

  /**
   * The packed buffer as one node contributes it, followed by the other
   * nodes' packed buffers, is the packed buffer of every node.
   */
  lemma PacksAcrossCons(local: seq<seq<int>>, peers: seq<seq<seq<int>>>, infos: seq<GradInfo>, packed: seq<nat>)
    requires Shaped(local, infos) && forall m :: 0 <= m < |peers| ==> Shaped(peers[m], infos)
    requires Indices(packed, |infos|)
    ensures forall m :: 0 <= m < |[local] + peers| ==> Shaped(([local] + peers)[m], infos)
    ensures PacksAcross([local] + peers, infos, packed) == [Pack(local, infos, packed)] + PacksAcross(peers, infos, packed)
  {
    var nodes := [local] + peers;
    assert forall m :: 0 <= m < |nodes| ==> Shaped(nodes[m], infos) by {
      forall m | 0 <= m < |nodes|
        ensures Shaped(nodes[m], infos)
      {
        if m > 0 {
          assert nodes[m] == peers[m - 1];
        }
      }
    }
    var lhs := PacksAcross(nodes, infos, packed);
    var rhs := [Pack(local, infos, packed)] + PacksAcross(peers, infos, packed);
    assert |lhs| == |rhs|;
    forall m | 0 <= m < |lhs|
      ensures lhs[m] == rhs[m]
    {
      if m > 0 {
        assert nodes[m] == peers[m - 1];
      }
    }
  }

  /** Gradient i of one node, followed by gradient i of the other nodes. */
  lemma GradientAcrossCons(local: seq<seq<int>>, peers: seq<seq<seq<int>>>, infos: seq<GradInfo>, i: nat)
    requires Shaped(local, infos) && forall m :: 0 <= m < |peers| ==> Shaped(peers[m], infos)
    requires i < |infos|
    ensures forall m :: 0 <= m < |[local] + peers| ==> Shaped(([local] + peers)[m], infos)
    ensures GradientAcross([local] + peers, infos, i) == [local[i]] + GradientAcross(peers, infos, i)
  {
    var nodes := [local] + peers;
    assert forall m :: 0 <= m < |nodes| ==> Shaped(nodes[m], infos) by {
      forall m | 0 <= m < |nodes|
        ensures Shaped(nodes[m], infos)
      {
        if m > 0 {
          assert nodes[m] == peers[m - 1];
        }
      }
    }
    var lhs := GradientAcross(nodes, infos, i);
    var rhs := [local[i]] + GradientAcross(peers, infos, i);
    assert |lhs| == |rhs|;
    forall m | 0 <= m < |lhs|
      ensures lhs[m] == rhs[m]
    {
      if m > 0 {
        assert nodes[m] == peers[m - 1];
      }
    }
  }

  /**
   * A node that zeroed its gradients leaves each reduced gradient equal to
   * the sum over the other nodes alone.
   */
  lemma ZeroedNodeAddsNothing(values: seq<seq<int>>, peers: seq<seq<seq<int>>>, infos: seq<GradInfo>, i: nat)
    requires Shaped(values, infos) && forall m :: 0 <= m < |peers| ==> Shaped(peers[m], infos)
    requires i < |infos|
    ensures Shaped(ZeroedLike(values), infos)
    ensures forall m :: 0 <= m < |[ZeroedLike(values)] + peers| ==> Shaped(([ZeroedLike(values)] + peers)[m], infos)
    ensures AllReduceSum(GradientAcross([ZeroedLike(values)] + peers, infos, i), NumElements(infos[i]))
            == AllReduceSum(GradientAcross(peers, infos, i), NumElements(infos[i]))
  {
    var z := ZeroedLike(values);
    GradientAcrossCons(z, peers, infos, i);
    AllReduceIgnoresZeroedNode(GradientAcross(peers, infos, i), NumElements(infos[i]));
  }

  /**
   * After every entry of the aggregation list has been reduced — each lone
   * gradient in place, the packed buffer as a whole — unpacking the
   * reduced buffer leaves every gradient equal to its sum over the nodes.
   */
  lemma ReducedLayoutGivesPerGradientSum(
    nodes: seq<seq<seq<int>>>, infos: seq<GradInfo>, packed: seq<nat>, toAggregate: seq<Slot>,
    reduced: seq<seq<int>>, buffer: seq<int>)
    requires forall m :: 0 <= m < |nodes| ==> Shaped(nodes[m], infos)
    requires Indices(packed, |infos|) && WellFormedLayout(infos, packed, toAggregate, PackedElements(infos, packed))
    requires Shaped(reduced, infos)
    requires forall i :: 0 <= i < |infos| && Gradient(i) in toAggregate ==>
      reduced[i] == AllReduceSum(GradientAcross(nodes, infos, i), NumElements(infos[i]))
    requires buffer == AllReduceSum(PacksAcross(nodes, infos, packed), PackedElements(infos, packed))
    ensures Shaped(Unpack(buffer, reduced, infos, packed), infos)
    ensures forall i :: 0 <= i < |infos| ==>
      Unpack(buffer, reduced, infos, packed)[i] == AllReduceSum(GradientAcross(nodes, infos, i), NumElements(infos[i]))
  {
    var r := Unpack(buffer, reduced, infos, packed);
    assert Distinct(packed) by {
      forall a, b | 0 <= a < b < |packed|
        ensures packed[a] != packed[b]
      {
        assert packed[a] < packed[b];
      }
    }
    forall i | 0 <= i < |infos|
      ensures r[i] == AllReduceSum(GradientAcross(nodes, infos, i), NumElements(infos[i]))
    {
      if i in packed {
        var k :| 0 <= k < |packed| && packed[k] == i;
        UnpackAt(buffer, reduced, infos, packed, |packed|, k);
        PackedReductionIsPerGradientSum(nodes, infos, packed, k);
      } else {
        UnpackKeepsShape(buffer, reduced, infos, packed, i);
      }
    }
  }

  /** The pack loop: each packed gradient is copied to the running offset. */
  method PackInto(a: array<int>, values: seq<seq<int>>, infos: seq<GradInfo>, packed: seq<nat>)
    requires Shaped(values, infos) && Indices(packed, |infos|)
    requires a.Length == PackedElements(infos, packed)
    modifies a
    ensures a[..] == Pack(values, infos, packed)
  {
    var offset := 0;
    var k := 0;
    while k < |packed|
      invariant 0 <= k <= |packed|
      invariant offset == Offset(infos, packed, k) <= a.Length
      invariant a[..offset] == PackUpTo(values, infos, packed, k)
    {
      var i := packed[k];
      OffsetMonotone(infos, packed, k + 1, |packed|);
      ghost var before := a[..offset];
      AssignSlice(a, offset, values[i]);
      assert a[..offset + |values[i]|] == before + values[i];
      offset := offset + NumElements(infos[i]);
      k := k + 1;
    }
    assert a[..] == a[..offset];
  }

  /** The unpack loop: each packed gradient is read back from its slice. */
  method UnpackFrom(a: array<int>, values: seq<seq<int>>, infos: seq<GradInfo>, packed: seq<nat>) returns (r: seq<seq<int>>)
    requires Shaped(values, infos) && Indices(packed, |infos|)
    requires a.Length == PackedElements(infos, packed)
    ensures r == Unpack(a[..], values, infos, packed)
  {
    ghost var buf := a[..];
    r := values;
    var offset := 0;
    var k := 0;
    while k < |packed|
      invariant 0 <= k <= |packed|
      invariant offset == Offset(infos, packed, k) <= a.Length
      invariant r == UnpackUpTo(buf, values, infos, packed, k)
    {
      var i := packed[k];
      var n := NumElements(infos[i]);
      OffsetMonotone(infos, packed, k + 1, |packed|);
      assert offset + n == Offset(infos, packed, k + 1);
      assert a[offset..offset + n] == buf[offset..offset + n];
      r := r[i := a[offset..offset + n]];
      offset := offset + n;
      k := k + 1;
    }
  }

  /**
   * The gradients once the entries in `done` have been reduced: those
   * hold their sum over the nodes, the others this node's values.
   */
  ghost predicate ReducedSoFar(r: seq<seq<int>>, local: seq<seq<int>>, nodes: seq<seq<seq<int>>>,
                               infos: seq<GradInfo>, done: seq<Slot>)
    requires forall m :: 0 <= m < |nodes| ==> Shaped(nodes[m], infos)
  {
    && Shaped(r, infos)
    && |local| == |infos|
    && forall i :: 0 <= i < |infos| ==>
         r[i] == if Gradient(i) in done then AllReduceSum(GradientAcross(nodes, infos, i), NumElements(infos[i])) else local[i]
  }

  lemma ReducedSoFarPacked(r: seq<seq<int>>, local: seq<seq<int>>, nodes: seq<seq<seq<int>>>,
                           infos: seq<GradInfo>, done: seq<Slot>)
    requires forall m :: 0 <= m < |nodes| ==> Shaped(nodes[m], infos)
    requires ReducedSoFar(r, local, nodes, infos, done)
    ensures ReducedSoFar(r, local, nodes, infos, done + [PackedBuffer])
  {
    forall i | 0 <= i < |infos|
      ensures Gradient(i) in done + [PackedBuffer] <==> Gradient(i) in done
    {
    }
  }

  lemma ReducedSoFarGradient(r: seq<seq<int>>, local: seq<seq<int>>, peers: seq<seq<seq<int>>>,
                             infos: seq<GradInfo>, done: seq<Slot>, i: nat)
    requires Shaped(local, infos) && forall m :: 0 <= m < |peers| ==> Shaped(peers[m], infos)
    requires forall m :: 0 <= m < |[local] + peers| ==> Shaped(([local] + peers)[m], infos)
    requires ReducedSoFar(r, local, [local] + peers, infos, done)
    requires i < |infos| && Gradient(i) !in done
    ensures Shaped(r, infos)
    ensures ReducedSoFar(r[i := AllReduceSum([r[i]] + GradientAcross(peers, infos, i), NumElements(infos[i]))],
                         local, [local] + peers, infos, done + [Gradient(i)])
  {
    GradientAcrossCons(local, peers, infos, i);
    assert r[i] == local[i];
    forall j | 0 <= j < |infos|
      ensures Gradient(j) in done + [Gradient(i)] <==> Gradient(j) in done || j == i
    {
    }
  }

  /**
   * What the buffer holds once the entries of `done` have been reduced:
   * the sum over the nodes after the packed buffer's turn, this node's
   * packed gradients before it.
   */
  ghost predicate BufferSoFar(buffer: seq<int>, local: seq<seq<int>>, nodes: seq<seq<seq<int>>>,
                              infos: seq<GradInfo>, packed: seq<nat>, done: seq<Slot>)
    requires Shaped(local, infos) && Indices(packed, |infos|)
    requires forall m :: 0 <= m < |nodes| ==> Shaped(nodes[m], infos)
  {
    buffer == if PackedBuffer in done then AllReduceSum(PacksAcross(nodes, infos, packed), PackedElements(infos, packed))
              else Pack(local, infos, packed)
  }

  /** One turn of the reduction loop: entry k of the aggregation list. */
  method ReduceEntry(a: array<int>, r: seq<seq<int>>, local: seq<seq<int>>, peers: seq<seq<seq<int>>>,
                     infos: seq<GradInfo>, packed: seq<nat>, toAggregate: seq<Slot>, k: nat)
    returns (r': seq<seq<int>>)
    requires Indices(packed, |infos|) && a.Length == PackedElements(infos, packed) && k < |toAggregate|
    requires toAggregate[k] == PackedBuffer ==> k == 0
    requires toAggregate[k].Gradient? ==> toAggregate[k].index < |infos|
    requires toAggregate[k] !in toAggregate[..k]
    requires Shaped(local, infos) && forall m :: 0 <= m < |peers| ==> Shaped(peers[m], infos)
    requires forall m :: 0 <= m < |[local] + peers| ==> Shaped(([local] + peers)[m], infos)
    requires PacksAcross([local] + peers, infos, packed) == [Pack(local, infos, packed)] + PacksAcross(peers, infos, packed)
    requires ReducedSoFar(r, local, [local] + peers, infos, toAggregate[..k])
    requires BufferSoFar(a[..], local, [local] + peers, infos, packed, toAggregate[..k])
    modifies a
    ensures ReducedSoFar(r', local, [local] + peers, infos, toAggregate[..k + 1])
    ensures BufferSoFar(a[..], local, [local] + peers, infos, packed, toAggregate[..k + 1])
  {
    ghost var done := toAggregate[..k];
    assert toAggregate[..k + 1] == done + [toAggregate[k]];
    if toAggregate[k] == PackedBuffer {
      assert k == 0 && done == [];
      var reduced := AllReduceSum([a[..]] + PacksAcross(peers, infos, packed), a.Length);
      CopyInto(a, reduced);
      ReducedSoFarPacked(r, local, [local] + peers, infos, done);
      r' := r;
    } else {
      var i := toAggregate[k].index;
      assert Gradient(i) !in done;
      ReducedSoFarGradient(r, local, peers, infos, done, i);
      var reduced := AllReduceSum([r[i]] + GradientAcross(peers, infos, i), NumElements(infos[i]));
      r' := r[i := reduced];
      assert PackedBuffer in done + [Gradient(i)] <==> PackedBuffer in done;
    }
  }

  /**
   * The reduction step of every branch that reduces: each entry of the
   * aggregation list in turn is replaced by its sum over the nodes, this
   * node contributing its current packed buffer or gradient.
   */
  method ReduceEntries(a: array<int>, local: seq<seq<int>>, peers: seq<seq<seq<int>>>,
                       infos: seq<GradInfo>, packed: seq<nat>, toAggregate: seq<Slot>)
    returns (r: seq<seq<int>>)
    requires WellFormedLayout(infos, packed, toAggregate, a.Length)
    requires Shaped(local, infos) && forall m :: 0 <= m < |peers| ==> Shaped(peers[m], infos)
    requires a[..] == Pack(local, infos, packed)
    modifies a
    ensures forall m :: 0 <= m < |[local] + peers| ==> Shaped(([local] + peers)[m], infos)
    ensures Shaped(r, infos)
    ensures forall i :: 0 <= i < |infos| ==>
      r[i] == if Gradient(i) in toAggregate then AllReduceSum(GradientAcross([local] + peers, infos, i), NumElements(infos[i])) else local[i]
    ensures a[..] == AllReduceSum(PacksAcross([local] + peers, infos, packed), a.Length)
    ensures IsReducedSum(Unpack(a[..], r, infos, packed), [local] + peers, infos)
  {
    PacksAcrossCons(local, peers, infos, packed);
    r := local;
    var k := 0;
    while k < |toAggregate|
      invariant 0 <= k <= |toAggregate|
      invariant ReducedSoFar(r, local, [local] + peers, infos, toAggregate[..k])
      invariant BufferSoFar(a[..], local, [local] + peers, infos, packed, toAggregate[..k])
    {
      DistinctNotBefore(toAggregate, k);
      r := ReduceEntry(a, r, local, peers, infos, packed, toAggregate, k);
      k := k + 1;
    }
    assert toAggregate[..k] == toAggregate;
    AllEntriesReduced(a[..], r, local, peers, infos, packed, toAggregate);
  }

  /** Once every entry has had its turn, the unpacked result is the sum over all nodes. */
  lemma AllEntriesReduced(buffer: seq<int>, r: seq<seq<int>>, local: seq<seq<int>>, peers: seq<seq<seq<int>>>,
                          infos: seq<GradInfo>, packed: seq<nat>, toAggregate: seq<Slot>)
    requires WellFormedLayout(infos, packed, toAggregate, |buffer|)
    requires Shaped(local, infos) && forall m :: 0 <= m < |peers| ==> Shaped(peers[m], infos)
    requires forall m :: 0 <= m < |[local] + peers| ==> Shaped(([local] + peers)[m], infos)
    requires ReducedSoFar(r, local, [local] + peers, infos, toAggregate)
    requires BufferSoFar(buffer, local, [local] + peers, infos, packed, toAggregate)
    ensures Shaped(r, infos)
    ensures buffer == AllReduceSum(PacksAcross([local] + peers, infos, packed), |buffer|)
    ensures IsReducedSum(Unpack(buffer, r, infos, packed), [local] + peers, infos)
  {
    if PackedBuffer !in toAggregate {
      assert |buffer| == 0;
    }
    ReducedLayoutGivesPerGradientSum([local] + peers, infos, packed, toAggregate, r, buffer);
  }

  /**
   * The zero-sample rule: a node that processed no samples zeroes its
   * gradients, so the aggregate is the sum over the other nodes alone.
   */
  lemma ZeroedNodeReducedSum(values: seq<seq<int>>, peers: seq<seq<seq<int>>>, infos: seq<GradInfo>, r: seq<seq<int>>)
    requires Shaped(values, infos) && NodesShaped(peers, infos)
    requires NodesShaped([ZeroedLike(values)] + peers, infos)
    requires IsReducedSum(r, [ZeroedLike(values)] + peers, infos)
    ensures IsReducedSum(r, peers, infos)
  {
    forall i | 0 <= i < |infos|
      ensures r[i] == AllReduceSum(GradientAcross(peers, infos, i), NumElements(infos[i]))
    {
      ZeroedNodeAddsNothing(values, peers, infos, i);
    }
  }
}
