/**
 * The one-time aggregation layout chosen by the first ResetState call:
 * which gradients are packed into one contiguous buffer, which are reduced
 * on their own, and where each packed gradient lives inside the buffer.
 */
module Layout {
  import opened Shapes

  /** The constants that decide whether a gradient may be packed. */
  datatype PackPolicy = PackPolicy(useAsync: bool, elemSize: nat, thresholdBytes: nat)

  /** Small enough to be packed, and never when aggregating asynchronously. */
  predicate Packable(g: GradInfo, p: PackPolicy)
  {
    !p.useAsync && p.elemSize * NumElements(g) <= p.thresholdBytes
  }

  predicate Indices(s: seq<nat>, n: nat)
  {
    forall k :: 0 <= k < |s| ==> s[k] < n
  }

  predicate StrictlyIncreasing(s: seq<nat>)
  {
    forall a, b :: 0 <= a < b < |s| ==> s[a] < s[b]
  }

  predicate Distinct<T(==)>(s: seq<T>)
  {
    forall a, b :: 0 <= a < b < |s| ==> s[a] != s[b]
  }

  /** No entry of a list without repetitions occurs before its own position. */
  lemma DistinctNotBefore<T>(s: seq<T>, k: nat)
    requires Distinct(s) && k < |s|
    ensures s[k] !in s[..k]
  {
    forall j | 0 <= j < k
      ensures s[..k][j] != s[k]
    {
    }
  }

  /** The gradient entries of an aggregation list come in increasing index order. */
  predicate GradientsIncreasing(slots: seq<Slot>)
  {
    forall a, b :: 0 <= a < b < |slots| && slots[a].Gradient? && slots[b].Gradient? ==> slots[a].index < slots[b].index
  }

  /** m_packedGradientsIndex after the setup loop has seen gradients 0 .. k-1. */
  function PackedUpTo(infos: seq<GradInfo>, p: PackPolicy, k: nat): (r: seq<nat>)
    requires k <= |infos|
    ensures Indices(r, k)
  {
    if k == 0 then []
    else PackedUpTo(infos, p, k - 1) + (if Packable(infos[k - 1], p) then [k - 1] else [])
  }

  /** m_gradientIndexToAggregate after the setup loop has seen gradients 0 .. k-1. */
  function LoneUpTo(infos: seq<GradInfo>, p: PackPolicy, k: nat): (r: seq<Slot>)
    requires k <= |infos|
  {
    if k == 0 then []
    else LoneUpTo(infos, p, k - 1) + (if Packable(infos[k - 1], p) then [] else [Gradient(k - 1)])
  }

  /** The aggregation list of the fallback: every gradient on its own, in order. */
  function AllGradients(n: nat): (r: seq<Slot>)
    ensures |r| == n && forall k :: 0 <= k < n ==> r[k] == Gradient(k)
  {
    seq(n, k requires 0 <= k < n => Gradient(k))
  }

  /**
   * Start of the k-th packed slice: the running `offset` of the pack and
   * unpack loops after k packed gradients.
   */
  function Offset(infos: seq<GradInfo>, packed: seq<nat>, k: nat): (r: nat)
    requires Indices(packed, |infos|) && k <= |packed|
  {
    if k == 0 then 0 else Offset(infos, packed, k - 1) + NumElements(infos[packed[k - 1]])
  }

  /** Sum of the element counts of the packed gradients. */
  function PackedElements(infos: seq<GradInfo>, packed: seq<nat>): nat
    requires Indices(packed, |infos|)
  {
    Offset(infos, packed, |packed|)
  }

  /** The layout the aggregator keeps for the rest of its life. */
  datatype Plan = Plan(packed: seq<nat>, toAggregate: seq<Slot>, packedSize: nat)

  /**
   * The layout the first ResetState call settles on. `allocOk` says whether
   * the nothrow allocation of the packed buffer succeeded; it is only
   * attempted when there is something to pack.
   */
  function ChoosePlan(infos: seq<GradInfo>, p: PackPolicy, allocOk: bool): (r: Plan)
    ensures Indices(r.packed, |infos|) && r.packedSize == PackedElements(infos, r.packed)
    ensures r.packed == [] <==> r.packedSize == 0
    ensures |r.toAggregate| + |r.packed| == |infos| + (if r.packedSize > 0 then 1 else 0)
    ensures r.packedSize > 0 ==> allocOk
  {
    var packed := PackedUpTo(infos, p, |infos|);
    PackedUpToIndices(infos, p, |infos|);
    PartitionSizes(infos, p, |infos|);
    var size := PackedElements(infos, packed);
    if size > 0 && allocOk then Plan(packed, [PackedBuffer] + LoneUpTo(infos, p, |infos|), size)
    else Plan([], AllGradients(|infos|), 0)
  }

  /** Whether the packed buffer exists under the plan ChoosePlan picks. */
  predicate HasPackedBuffer(infos: seq<GradInfo>, p: PackPolicy, allocOk: bool)
  {
    PackedUpToIndices(infos, p, |infos|);
    PackedElements(infos, PackedUpTo(infos, p, |infos|)) > 0 && allocOk
  }

  /** Element count of one aggregation entry: the packed buffer's size for the sentinel. */
  function SlotCount(infos: seq<GradInfo>, packedSize: nat, s: Slot): nat
  {
    match s
    case PackedBuffer => packedSize
    case Gradient(i) => if i < |infos| then NumElements(infos[i]) else 0
  }

  /** Element count of every entry of an aggregation list, in list order. */
  function SlotCounts(infos: seq<GradInfo>, packedSize: nat, slots: seq<Slot>): (r: seq<nat>)
    ensures |r| == |slots|
    ensures forall k :: 0 <= k < |slots| ==> r[k] == SlotCount(infos, packedSize, slots[k])
  {
    seq(|slots|, k requires 0 <= k < |slots| => SlotCount(infos, packedSize, slots[k]))
  }

  /**
   * What the rest of the aggregator relies on of a layout: packed indices
   * in range and increasing, every gradient either packed or on the
   * aggregation list, list entries distinct, in range and in increasing
   * index order, the sentinel only in front and present exactly when the
   * packed buffer is not empty, and the packed size the sum of the packed
   * element counts.
   */
  predicate WellFormedLayout(infos: seq<GradInfo>, packed: seq<nat>, toAggregate: seq<Slot>, packedSize: nat)
  {
    && Indices(packed, |infos|)
    && StrictlyIncreasing(packed)
    && (forall i: nat :: i < |infos| ==> (i in packed <==> Gradient(i) !in toAggregate))
    && (forall a :: 0 <= a < |toAggregate| && toAggregate[a].Gradient? ==> toAggregate[a].index < |infos|)
    && (forall a :: 0 <= a < |toAggregate| && toAggregate[a] == PackedBuffer ==> a == 0)
    && (PackedBuffer in toAggregate <==> packedSize > 0)
    && Distinct(toAggregate)
    && GradientsIncreasing(toAggregate)
    && packedSize == PackedElements(infos, packed)
  }

  // ---------------------------------------------------------------------
  // Partition of the gradient list

  lemma {:induction false} PackedUpToIndices(infos: seq<GradInfo>, p: PackPolicy, k: nat)
    requires k <= |infos|
    ensures Indices(PackedUpTo(infos, p, k), k)
    ensures Indices(PackedUpTo(infos, p, k), |infos|)
  {
    if k > 0 {
      PackedUpToIndices(infos, p, k - 1);
    }
  }

  /** Each of the first k gradients lands on exactly one of the two lists. */
  lemma {:induction false} PartitionSizes(infos: seq<GradInfo>, p: PackPolicy, k: nat)
    requires k <= |infos|
    ensures |PackedUpTo(infos, p, k)| + |LoneUpTo(infos, p, k)| == k
  {
    if k > 0 {
      PartitionSizes(infos, p, k - 1);
    }
  }

  /** After gradients 0 .. k-1, a gradient is packed exactly when it is packable. */
  lemma {:induction false} PackedMembership(infos: seq<GradInfo>, p: PackPolicy, k: nat)
    requires k <= |infos|
    ensures forall i: nat :: i in PackedUpTo(infos, p, k) <==> i < k && Packable(infos[i], p)
  {
    if k > 0 {
      PackedMembership(infos, p, k - 1);
    }
  }

  /** The packed list is in increasing index order. */
  lemma {:induction false} PackedIncreasing(infos: seq<GradInfo>, p: PackPolicy, k: nat)
    requires k <= |infos|
    ensures StrictlyIncreasing(PackedUpTo(infos, p, k))
  {
    if k > 0 {
      PackedIncreasing(infos, p, k - 1);
      PackedUpToIndices(infos, p, k - 1);
    }
  }

  /**
   * After gradients 0 .. k-1, the aggregation list holds only gradient
   * entries below k, and holds a gradient exactly when it is not packable.
   */
  lemma {:induction false} LoneMembership(infos: seq<GradInfo>, p: PackPolicy, k: nat)
    requires k <= |infos|
    ensures forall a :: 0 <= a < |LoneUpTo(infos, p, k)| ==>
      LoneUpTo(infos, p, k)[a].Gradient? && LoneUpTo(infos, p, k)[a].index < k
    ensures forall i: nat :: Gradient(i) in LoneUpTo(infos, p, k) <==> i < k && !Packable(infos[i], p)
    ensures PackedBuffer !in LoneUpTo(infos, p, k)
  {
    if k > 0 {
      LoneMembership(infos, p, k - 1);
    }
  }

  /** The aggregation list is in increasing index order. */
  lemma {:induction false} LoneIncreasing(infos: seq<GradInfo>, p: PackPolicy, k: nat)
    requires k <= |infos|
    ensures GradientsIncreasing(LoneUpTo(infos, p, k))
    ensures forall a :: 0 <= a < |LoneUpTo(infos, p, k)| && LoneUpTo(infos, p, k)[a].Gradient? ==>
      LoneUpTo(infos, p, k)[a].index < k
  {
    if k > 0 {
      LoneIncreasing(infos, p, k - 1);
      var prev := LoneUpTo(infos, p, k - 1);
      if !Packable(infos[k - 1], p) {
        AppendKeepsIncreasing(prev, k - 1);
        var cur := prev + [Gradient(k - 1)];
        forall a | 0 <= a < |cur| && cur[a].Gradient?
          ensures cur[a].index < k
        {
          if a < |prev| {
            assert cur[a] == prev[a];
          }
        }
      }
    }
  }

  /** Appending a gradient above every listed index keeps the list in order. */
  lemma AppendKeepsIncreasing(prev: seq<Slot>, i: nat)
    requires GradientsIncreasing(prev)
    requires forall a :: 0 <= a < |prev| && prev[a].Gradient? ==> prev[a].index < i
    ensures GradientsIncreasing(prev + [Gradient(i)])
  {
    var cur := prev + [Gradient(i)];
    forall a, b | 0 <= a < b < |cur| && cur[a].Gradient? && cur[b].Gradient?
      ensures cur[a].index < cur[b].index
    {
      assert cur[a] == prev[a];
      if b < |prev| {
        assert cur[b] == prev[b];
      }
    }
  }

  /** Aggregating asynchronously packs nothing. */
  lemma {:induction false} AsyncPacksNothing(infos: seq<GradInfo>, p: PackPolicy, k: nat)
    requires p.useAsync && k <= |infos|
    ensures PackedUpTo(infos, p, k) == []
  {
    if k > 0 {
      AsyncPacksNothing(infos, p, k - 1);
    }
  }

  /**
   * Putting the sentinel in front of a list of gradient entries in
   * increasing index order keeps the entries distinct and in order.
   */
  lemma SentinelBeforeLone(lone: seq<Slot>)
    requires GradientsIncreasing(lone) && PackedBuffer !in lone
    ensures Distinct([PackedBuffer] + lone) && GradientsIncreasing([PackedBuffer] + lone)
  {
    var list := [PackedBuffer] + lone;
    forall a, b | 0 <= a < b < |list|
      ensures list[a] != list[b]
      ensures list[a].Gradient? && list[b].Gradient? ==> list[a].index < list[b].index
    {
      if a > 0 {
        assert list[a] == lone[a - 1] && list[b] == lone[b - 1] && lone[a - 1] in lone && lone[b - 1] in lone;
      } else {
        assert list[a] == PackedBuffer && list[b] == lone[b - 1] && lone[b - 1] in lone;
      }
    }
  }

  /** The layout with a packed buffer: the sentinel followed by the lone gradients. */
  lemma {:induction false} PackingPlanCovers(infos: seq<GradInfo>, p: PackPolicy)
    requires HasPackedBuffer(infos, p, true)
    ensures var plan := ChoosePlan(infos, p, true);
      && WellFormedLayout(infos, plan.packed, plan.toAggregate, plan.packedSize)
      && (forall i :: i in plan.packed ==> Packable(infos[i], p))
      && plan.packed != []
  {
    var n := |infos|;
    PackedMembership(infos, p, n);
    PackedIncreasing(infos, p, n);
    LoneMembership(infos, p, n);
    LoneIncreasing(infos, p, n);
    PackedUpToIndices(infos, p, n);
    var packed := PackedUpTo(infos, p, n);
    var lone := LoneUpTo(infos, p, n);
    var plan := ChoosePlan(infos, p, true);
    assert plan.toAggregate == [PackedBuffer] + lone;
    assert packed != [];
    SentinelBeforeLone(lone);
    forall i: nat | i < n
      ensures i in plan.packed <==> Gradient(i) !in plan.toAggregate
    {
      assert Gradient(i) in plan.toAggregate <==> Gradient(i) in lone;
    }
  }

  /** The fallback layout: nothing packed, every gradient on its own. */
  lemma FallbackPlanCovers(infos: seq<GradInfo>, p: PackPolicy, allocOk: bool)
    requires !HasPackedBuffer(infos, p, allocOk)
    ensures var plan := ChoosePlan(infos, p, allocOk);
      && WellFormedLayout(infos, plan.packed, plan.toAggregate, plan.packedSize)
      && plan.packed == [] && plan.packedSize == 0
  {
    var plan := ChoosePlan(infos, p, allocOk);
    assert plan.toAggregate == AllGradients(|infos|);
    forall i: nat | i < |infos|
      ensures Gradient(i) in plan.toAggregate
    {
      assert plan.toAggregate[i] == Gradient(i);
    }
  }

  /**
   * The final layout covers the gradient list: every gradient is either
   * packed or reduced on its own, never both (the layout is well formed);
   * packing happens only for packable gradients; the packed buffer is
   * non-empty exactly when something is packed, and exactly when it exists.
   */
  lemma PlanCoversEveryGradientOnce(infos: seq<GradInfo>, p: PackPolicy, allocOk: bool)
    ensures var plan := ChoosePlan(infos, p, allocOk);
      && WellFormedLayout(infos, plan.packed, plan.toAggregate, plan.packedSize)
      && (forall i :: i in plan.packed ==> Packable(infos[i], p))
      && (plan.packed == [] <==> plan.packedSize == 0)
      && (plan.packedSize > 0 <==> HasPackedBuffer(infos, p, allocOk))
  {
    if HasPackedBuffer(infos, p, allocOk) {
      PackingPlanCovers(infos, p);
    } else {
      FallbackPlanCovers(infos, p, allocOk);
    }
  }

  /**
   * When nothing is to be packed or the packed buffer could not be
   * allocated, the packed list is empty, the packed size zero and every
   * gradient is reduced on its own in index order.
   */
  lemma FallbackReducesEachGradient(infos: seq<GradInfo>, p: PackPolicy, allocOk: bool)
    requires !HasPackedBuffer(infos, p, allocOk)
    ensures ChoosePlan(infos, p, allocOk) == Plan([], AllGradients(|infos|), 0)
  {
  }

  /** Aggregating asynchronously always takes the fallback layout. */
  lemma AsyncPlan(infos: seq<GradInfo>, p: PackPolicy, allocOk: bool)
    requires p.useAsync
    ensures ChoosePlan(infos, p, allocOk) == Plan([], AllGradients(|infos|), 0)
    ensures !HasPackedBuffer(infos, p, allocOk)
  {
    AsyncPacksNothing(infos, p, |infos|);
  }

  // ---------------------------------------------------------------------
  // Offsets of the packed slices

  /** Extending the packed list does not move the earlier offsets. */
  lemma {:induction false} OffsetOfExtension(infos: seq<GradInfo>, s: seq<nat>, t: seq<nat>, k: nat)
    requires Indices(s, |infos|) && Indices(s + t, |infos|) && k <= |s|
    ensures Offset(infos, s + t, k) == Offset(infos, s, k)
  {
    if k > 0 {
      OffsetOfExtension(infos, s, t, k - 1);
      assert (s + t)[k - 1] == s[k - 1];
    }
  }

  lemma {:induction false} OffsetMonotone(infos: seq<GradInfo>, packed: seq<nat>, j: nat, k: nat)
    requires Indices(packed, |infos|) && j <= k <= |packed|
    ensures Offset(infos, packed, j) <= Offset(infos, packed, k)
  {
    if j < k {
      OffsetMonotone(infos, packed, j, k - 1);
    }
  }

  /**
   * The packed slices [Offset(k), Offset(k+1)) are pairwise disjoint: an
   * earlier slice ends no later than a later one starts.
   */
  lemma SlicesDisjoint(infos: seq<GradInfo>, packed: seq<nat>, j: nat, k: nat)
    requires Indices(packed, |infos|) && j < k < |packed|
    ensures Offset(infos, packed, j) <= Offset(infos, packed, j + 1) <= Offset(infos, packed, k)
  {
    OffsetMonotone(infos, packed, j + 1, k);
  }

  /**
   * The packed slices cover [0, packed size): every position of the packed
   * buffer lies in exactly one slice, returned as `k`.
   */
  lemma {:induction false} SliceOfPosition(infos: seq<GradInfo>, packed: seq<nat>, q: nat) returns (k: nat)
    requires Indices(packed, |infos|) && q < PackedElements(infos, packed)
    ensures k < |packed| && Offset(infos, packed, k) <= q < Offset(infos, packed, k + 1)
    ensures forall j :: 0 <= j < |packed| && Offset(infos, packed, j) <= q < Offset(infos, packed, j + 1) ==> j == k
  {
    k := |packed| - 1;
    while q < Offset(infos, packed, k)
      invariant 0 <= k < |packed| && q < Offset(infos, packed, k + 1)
      decreases k
    {
      k := k - 1;
    }
    forall j | 0 <= j < |packed| && Offset(infos, packed, j) <= q < Offset(infos, packed, j + 1)
      ensures j == k
    {
      if j < k {
        SlicesDisjoint(infos, packed, j, k);
      } else if k < j {
        SlicesDisjoint(infos, packed, k, j);
      }
    }
  }
}
