/**
 * The collective reduction the aggregator relies on, modelled as an
 * integer sum: every node contributes a buffer of the same length and
 * every node receives the elementwise sum. The library call itself is not
 * modelled, only its result.
 */
module Collective {
  import opened Shapes
  import opened Layout
  import opened Packing

  predicate SameLength(vs: seq<seq<int>>, len: nat)
  {
    forall m :: 0 <= m < |vs| ==> |vs[m]| == len
  }

  /** Sum over nodes of element t. */
  function ColumnSum(vs: seq<seq<int>>, t: nat): int
    requires forall m :: 0 <= m < |vs| ==> t < |vs[m]|
  {
    if vs == [] then 0 else ColumnSum(vs[..|vs| - 1], t) + vs[|vs| - 1][t]
  }

  /** The buffer every node holds after an in-place sum all-reduce. */
  function AllReduceSum(vs: seq<seq<int>>, len: nat): (r: seq<int>)
    requires SameLength(vs, len)
    ensures |r| == len
  {
    seq(len, t requires 0 <= t < len => ColumnSum(vs, t))
  }

  /** Gradient i as contributed by each node. */
  function GradientAcross(nodes: seq<seq<seq<int>>>, infos: seq<GradInfo>, i: nat): (r: seq<seq<int>>)
    requires forall m :: 0 <= m < |nodes| ==> Shaped(nodes[m], infos)
    requires i < |infos|
    ensures |r| == |nodes| && SameLength(r, NumElements(infos[i]))
  {
    assert forall m :: 0 <= m < |nodes| ==> |nodes[m]| == |infos| && |nodes[m][i]| == NumElements(infos[i]) by {
      forall m | 0 <= m < |nodes|
        ensures |nodes[m]| == |infos| && |nodes[m][i]| == NumElements(infos[i])
      {
        assert Shaped(nodes[m], infos);
      }
    }
    seq(|nodes|, m requires 0 <= m < |nodes| => nodes[m][i])
  }

  /** Every node's gradients have the recorded shapes. */
  predicate NodesShaped(nodes: seq<seq<seq<int>>>, infos: seq<GradInfo>)
  {
    forall m :: 0 <= m < |nodes| ==> Shaped(nodes[m], infos)
  }

  /** Gradient by gradient, `r` is the elementwise sum over the nodes. */
  predicate IsReducedSum(r: seq<seq<int>>, nodes: seq<seq<seq<int>>>, infos: seq<GradInfo>)
    requires NodesShaped(nodes, infos)
  {
    Shaped(r, infos) &&
    forall i :: 0 <= i < |infos| ==> r[i] == AllReduceSum(GradientAcross(nodes, infos, i), NumElements(infos[i]))
  }

  /** The packed buffer as contributed by each node, all nodes sharing one layout. */
  function PacksAcross(nodes: seq<seq<seq<int>>>, infos: seq<GradInfo>, packed: seq<nat>): (r: seq<seq<int>>)
    requires forall m :: 0 <= m < |nodes| ==> Shaped(nodes[m], infos)
    requires Indices(packed, |infos|)
    ensures |r| == |nodes| && SameLength(r, PackedElements(infos, packed))
  {
    seq(|nodes|, m requires 0 <= m < |nodes| => Pack(nodes[m], infos, packed))
  }

  /** Sums agree when the nodes' summands agree position by position. */
  lemma {:induction false} ColumnSumCongruent(a: seq<seq<int>>, x: nat, b: seq<seq<int>>, y: nat)
    requires |a| == |b|
    requires forall m :: 0 <= m < |a| ==> x < |a[m]| && y < |b[m]| && a[m][x] == b[m][y]
    ensures ColumnSum(a, x) == ColumnSum(b, y)
  {
    if a != [] {
      ColumnSumCongruent(a[..|a| - 1], x, b[..|b| - 1], y);
    }
  }

  /** The sum with one more node in front adds that node's element. */
  lemma {:induction false} ColumnSumFront(z: seq<int>, others: seq<seq<int>>, t: nat)
    requires t < |z|
    requires forall m :: 0 <= m < |others| ==> t < |others[m]|
    ensures ColumnSum([z] + others, t) == z[t] + ColumnSum(others, t)
  {
    if others != [] {
      var front := others[..|others| - 1];
      assert ([z] + others)[..|others|] == [z] + front;
      ColumnSumFront(z, front, t);
    } else {
      assert [z] + others == [z];
      assert [z][..0] == [];
    }
  }

  /** A contribution of zeros leaves the sum of the other nodes unchanged. */
  lemma {:induction false} ColumnSumZeroContribution(z: seq<int>, others: seq<seq<int>>, t: nat)
    requires t < |z| && z[t] == 0
    requires forall m :: 0 <= m < |others| ==> t < |others[m]|
    ensures ColumnSum([z] + others, t) == ColumnSum(others, t)
  {
    if others != [] {
      var front := others[..|others| - 1];
      assert ([z] + others)[..|others|] == [z] + front;
      ColumnSumZeroContribution(z, front, t);
    } else {
      assert [z] + others == [z];
      assert [z][..0] == [];
    }
  }

  /**
   * A node that zeroed its gradients leaves the all-reduce result equal to
   * the sum over the other nodes.
   */
  lemma AllReduceIgnoresZeroedNode(others: seq<seq<int>>, len: nat)
    requires SameLength(others, len)
    ensures AllReduceSum([Zeros(len)] + others, len) == AllReduceSum(others, len)
  {
    forall t | 0 <= t < len
      ensures AllReduceSum([Zeros(len)] + others, len)[t] == AllReduceSum(others, len)[t]
    {
      ColumnSumZeroContribution(Zeros(len), others, t);
    }
  }

  /** With a single node the all-reduce hands back that node's own buffer. */
  lemma AllReduceSingleNode(v: seq<int>)
    ensures AllReduceSum([v], |v|) == v
  {
    forall t | 0 <= t < |v|
      ensures AllReduceSum([v], |v|)[t] == v[t]
    {
      assert [v][..0] == [];
      assert ColumnSum([v], t) == ColumnSum([], t) + v[t];
    }
  }

  /**
   * Reducing the packed buffers of all nodes and reading back the k-th
   * slice gives the same values as reducing the k-th packed gradient on
   * its own: packing is invisible to the sum.
   */
  lemma PackedReductionIsPerGradientSum(nodes: seq<seq<seq<int>>>, infos: seq<GradInfo>, packed: seq<nat>, k: nat)
    requires forall m :: 0 <= m < |nodes| ==> Shaped(nodes[m], infos)
    requires Indices(packed, |infos|) && k < |packed|
    ensures Offset(infos, packed, k) <= Offset(infos, packed, k + 1) <= PackedElements(infos, packed)
    ensures AllReduceSum(PacksAcross(nodes, infos, packed), PackedElements(infos, packed))
              [Offset(infos, packed, k)..Offset(infos, packed, k + 1)]
            == AllReduceSum(GradientAcross(nodes, infos, packed[k]), NumElements(infos[packed[k]]))
  {
    OffsetMonotone(infos, packed, k + 1, |packed|);
    var i := packed[k];
    var size := PackedElements(infos, packed);
    var lo := Offset(infos, packed, k);
    var packs := PacksAcross(nodes, infos, packed);
    var grads := GradientAcross(nodes, infos, i);
    var whole := AllReduceSum(packs, size);
    var own := AllReduceSum(grads, NumElements(infos[i]));
    forall t | 0 <= t < NumElements(infos[i])
      ensures whole[lo + t] == own[t]
    {
      forall m | 0 <= m < |nodes|
        ensures packs[m][lo + t] == grads[m][t]
      {
        PackAt(nodes[m], infos, packed, k, t);
      }
      ColumnSumCongruent(packs, lo + t, grads, t);
    }
  }
}
