/**
 * The loops of the first ResetState call: the scan that splits the
 * gradient list, creates the buffered gradients of asynchronous mode and
 * stops at the first sparse gradient, and the loop that sizes one host
 * staging buffer per aggregation entry.
 */
module Setup {
  import opened Shapes
  import opened Layout
  import opened Packing

  /** Gradient k is the first sparse one: the scan fails there. */
  predicate FirstSparse(grads: seq<GradInfo>, k: nat)
    ensures FirstSparse(grads, k) ==> forall j :: 0 <= j < |grads| && !grads[j].dense ==> k <= j
  {
    k < |grads| && !grads[k].dense && forall j :: 0 <= j < k ==> grads[j].dense
  }

  /** Fresh buffered gradients for the first k gradients, zero-initialised. */
  function NewBuffers(grads: seq<GradInfo>, k: nat): (r: seq<seq<int>>)
    requires k <= |grads|
    ensures |r| == k && forall i :: 0 <= i < k ==> r[i] == Zeros(NumElements(grads[i]))
  {
    seq(k, i requires 0 <= i < k => Zeros(NumElements(grads[i])))
  }

  /** The packed list, the aggregation list and the packed size after the scan has seen gradients 0 .. i-1. */
  ghost predicate Scanned(grads: seq<GradInfo>, p: PackPolicy, i: nat, packed: seq<nat>, lone: seq<Slot>, size: nat)
    requires i <= |grads|
  {
    && packed == PackedUpTo(grads, p, i)
    && lone == LoneUpTo(grads, p, i)
    && Indices(packed, |grads|)
    && size == PackedElements(grads, packed)
  }

  lemma ScanStep(grads: seq<GradInfo>, p: PackPolicy, i: nat, packed: seq<nat>, lone: seq<Slot>, size: nat)
    requires i < |grads| && Scanned(grads, p, i, packed, lone, size)
    ensures Packable(grads[i], p) ==> Scanned(grads, p, i + 1, packed + [i], lone, size + NumElements(grads[i]))
    ensures !Packable(grads[i], p) ==> Scanned(grads, p, i + 1, packed, lone + [Gradient(i)], size)
  {
    PackedUpToIndices(grads, p, i + 1);
    if Packable(grads[i], p) {
      OffsetOfExtension(grads, packed, [i], |packed|);
    }
  }

  /**
   * The set-up loop over the gradients. Each gradient goes to the packed
   * list or to the aggregation list before its storage kind is checked,
   * so on the first sparse gradient the lists hold it already; in
   * asynchronous mode a buffered gradient is created for each dense one.
   */
  method ScanGradients(grads: seq<GradInfo>, p: PackPolicy)
    returns (packed: seq<nat>, lone: seq<Slot>, size: nat, buffered: seq<seq<int>>, sparse: Option<nat>)
    ensures sparse.Some? ==> FirstSparse(grads, sparse.value)
    ensures sparse.Some? ==> forall k: nat :: FirstSparse(grads, k) ==> k == sparse.value
    ensures sparse.None? ==> forall k: nat :: !FirstSparse(grads, k)
    ensures sparse.Some? ==> sparse.value < |grads| && Scanned(grads, p, sparse.value + 1, packed, lone, size)
    ensures sparse.None? ==> Scanned(grads, p, |grads|, packed, lone, size)
    ensures buffered == if p.useAsync then NewBuffers(grads, if sparse.Some? then sparse.value else |grads|) else []
  {
    packed, lone, size, buffered := [], [], 0, [];
    var i := 0;
    while i < |grads|
      invariant 0 <= i <= |grads|
      invariant Scanned(grads, p, i, packed, lone, size)
      invariant forall j :: 0 <= j < i ==> grads[j].dense
      invariant buffered == if p.useAsync then NewBuffers(grads, i) else []
    {
      ScanStep(grads, p, i, packed, lone, size);
      if !p.useAsync && p.elemSize * NumElements(grads[i]) <= p.thresholdBytes {
        size := size + NumElements(grads[i]);
        packed := packed + [i];
      } else {
        lone := lone + [Gradient(i)];
      }
      if !grads[i].dense {
        assert FirstSparse(grads, i);
        sparse := Some(i);
        return;
      }
      if p.useAsync {
        assert NewBuffers(grads, i + 1) == NewBuffers(grads, i) + [Zeros(NumElements(grads[i]))];
        buffered := buffered + [Zeros(NumElements(grads[i]))];
      }
      i := i + 1;
    }
    sparse := None;
  }

  /**
   * The layout settled once every gradient has been scanned: the packed
   * buffer is allocated when something was packed and the allocation
   * succeeds, and put first in the aggregation list; failing that,
   * nothing is packed and every gradient is reduced on its own. Host
   * buffers are sized only when data is staged through the host. An
   * empty array stands for "no packed buffer".
   */
  method ChooseLayout(grads: seq<GradInfo>, p: PackPolicy, allocOk: bool, copyToHost: bool,
                      packed: seq<nat>, lone: seq<Slot>, size: nat)
    returns (buffer: array<int>, packedIndex: seq<nat>, toAggregate: seq<Slot>, hostSizes: seq<nat>)
    requires Scanned(grads, p, |grads|, packed, lone, size)
    ensures fresh(buffer)
    ensures Plan(packedIndex, toAggregate, buffer.Length) == ChoosePlan(grads, p, allocOk)
    ensures WellFormedLayout(grads, packedIndex, toAggregate, buffer.Length)
    ensures hostSizes == if copyToHost then SlotCounts(grads, buffer.Length, toAggregate) else []
  {
    PlanCoversEveryGradientOnce(grads, p, allocOk);
    if size > 0 && allocOk {
      buffer := new int[size];
      packedIndex, toAggregate := packed, [PackedBuffer] + lone;
    } else {
      buffer := new int[0];
      packedIndex, toAggregate := [], AllGradients(|grads|);
    }
    assert Plan(packedIndex, toAggregate, buffer.Length) == ChoosePlan(grads, p, allocOk);
    hostSizes := [];
    if copyToHost {
      hostSizes := HostBufferSizes(grads, buffer.Length, toAggregate);
    }
  }

  /** The loop that allocates one host staging buffer per aggregation entry. */
  method HostBufferSizes(infos: seq<GradInfo>, packedSize: nat, slots: seq<Slot>) returns (sizes: seq<nat>)
    requires forall a :: 0 <= a < |slots| && slots[a].Gradient? ==> slots[a].index < |infos|
    ensures sizes == SlotCounts(infos, packedSize, slots)
  {
    sizes := [];
    var k := 0;
    while k < |slots|
      invariant 0 <= k <= |slots|
      invariant sizes == SlotCounts(infos, packedSize, slots)[..k]
    {
      var s := slots[k];
      sizes := sizes + [if s == PackedBuffer then packedSize else NumElements(infos[s.index])];
      k := k + 1;
    }
  }
}
