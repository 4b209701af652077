/**
 * Copying the small gradients into consecutive slices of the packed buffer
 * before reduction, and back out of it afterwards, as functions of the
 * gradient values. A gradient's value is its elements in storage order.
 */
module Packing {
  import opened Shapes
  import opened Layout

  /** Gradient values that match the shapes recorded at setup. */
  predicate Shaped(values: seq<seq<int>>, infos: seq<GradInfo>)
  {
    |values| == |infos| && forall i :: 0 <= i < |values| ==> |values[i]| == NumElements(infos[i])
  }

  /** The packed buffer after the pack loop has copied the first k packed gradients. */
  function PackUpTo(values: seq<seq<int>>, infos: seq<GradInfo>, packed: seq<nat>, k: nat): (r: seq<int>)
    requires Shaped(values, infos) && Indices(packed, |infos|) && k <= |packed|
    ensures |r| == Offset(infos, packed, k)
  {
    if k == 0 then [] else PackUpTo(values, infos, packed, k - 1) + values[packed[k - 1]]
  }

  /** The whole packed buffer. */
  function Pack(values: seq<seq<int>>, infos: seq<GradInfo>, packed: seq<nat>): (r: seq<int>)
    requires Shaped(values, infos) && Indices(packed, |infos|)
    ensures |r| == PackedElements(infos, packed)
  {
    PackUpTo(values, infos, packed, |packed|)
  }

  /**
   * The gradients after the unpack loop has copied the first k slices of
   * `buffer` back into the packed gradients.
   */
  function UnpackUpTo(buffer: seq<int>, values: seq<seq<int>>, infos: seq<GradInfo>, packed: seq<nat>, k: nat): (r: seq<seq<int>>)
    requires Shaped(values, infos) && Indices(packed, |infos|) && k <= |packed|
    requires |buffer| == PackedElements(infos, packed)
    ensures Shaped(r, infos)
  {
    if k == 0 then values
    else
      OffsetMonotone(infos, packed, k, |packed|);
      UnpackUpTo(buffer, values, infos, packed, k - 1)[packed[k - 1] := buffer[Offset(infos, packed, k - 1)..Offset(infos, packed, k)]]
  }

  /** All gradients after the whole unpack loop. */
  function Unpack(buffer: seq<int>, values: seq<seq<int>>, infos: seq<GradInfo>, packed: seq<nat>): (r: seq<seq<int>>)
    requires Shaped(values, infos) && Indices(packed, |infos|)
    requires |buffer| == PackedElements(infos, packed)
    ensures Shaped(r, infos)
  {
    UnpackUpTo(buffer, values, infos, packed, |packed|)
  }

  /** The k-th slice of the packed buffer holds the k-th packed gradient. */
  lemma {:induction false} PackSlice(values: seq<seq<int>>, infos: seq<GradInfo>, packed: seq<nat>, k: nat, m: nat)
    requires Shaped(values, infos) && Indices(packed, |infos|) && k < m <= |packed|
    ensures Offset(infos, packed, k) <= Offset(infos, packed, k + 1) <= |PackUpTo(values, infos, packed, m)|
    ensures PackUpTo(values, infos, packed, m)[Offset(infos, packed, k)..Offset(infos, packed, k + 1)] == values[packed[k]]
  {
    OffsetMonotone(infos, packed, k + 1, m);
    if k < m - 1 {
      PackSlice(values, infos, packed, k, m - 1);
      OffsetMonotone(infos, packed, k + 1, m - 1);
      var prev := PackUpTo(values, infos, packed, m - 1);
      assert PackUpTo(values, infos, packed, m)[..|prev|] == prev;
    } else {
      var prev := PackUpTo(values, infos, packed, k);
      assert PackUpTo(values, infos, packed, m) == prev + values[packed[k]];
    }
  }

  /** Element t of the k-th packed gradient sits at position Offset(k) + t of the packed buffer. */
  lemma PackAt(values: seq<seq<int>>, infos: seq<GradInfo>, packed: seq<nat>, k: nat, t: nat)
    requires Shaped(values, infos) && Indices(packed, |infos|) && k < |packed|
    requires t < NumElements(infos[packed[k]])
    ensures Offset(infos, packed, k) + t < |Pack(values, infos, packed)|
    ensures Pack(values, infos, packed)[Offset(infos, packed, k) + t] == values[packed[k]][t]
  {
    PackSlice(values, infos, packed, k, |packed|);
    var buf := Pack(values, infos, packed);
    var lo, hi := Offset(infos, packed, k), Offset(infos, packed, k + 1);
    assert buf[lo..hi][t] == buf[lo + t];
  }

  /** Unpacking leaves every gradient that is not packed exactly as it was. */
  lemma {:induction false} UnpackLeavesOthers(buffer: seq<int>, values: seq<seq<int>>, infos: seq<GradInfo>, packed: seq<nat>, k: nat, i: nat)
    requires Shaped(values, infos) && Indices(packed, |infos|) && k <= |packed|
    requires |buffer| == PackedElements(infos, packed)
    requires i < |values| && i !in packed[..k]
    ensures UnpackUpTo(buffer, values, infos, packed, k)[i] == values[i]
  {
    if k > 0 {
      assert packed[..k - 1] <= packed[..k];
      assert packed[k - 1] in packed[..k];
      UnpackLeavesOthers(buffer, values, infos, packed, k - 1, i);
    }
  }

  /**
   * With no index packed twice, unpacking gives the j-th packed gradient the
   * j-th slice of the buffer.
   */
  lemma {:induction false} UnpackAt(buffer: seq<int>, values: seq<seq<int>>, infos: seq<GradInfo>, packed: seq<nat>, k: nat, j: nat)
    requires Shaped(values, infos) && Indices(packed, |infos|) && Distinct(packed) && j < k <= |packed|
    requires |buffer| == PackedElements(infos, packed)
    ensures Offset(infos, packed, j) <= Offset(infos, packed, j + 1) <= |buffer|
    ensures UnpackUpTo(buffer, values, infos, packed, k)[packed[j]] == buffer[Offset(infos, packed, j)..Offset(infos, packed, j + 1)]
  {
    OffsetMonotone(infos, packed, j, j + 1);
    OffsetMonotone(infos, packed, j + 1, |packed|);
    if j < k - 1 {
      UnpackAt(buffer, values, infos, packed, k - 1, j);
      assert packed[k - 1] != packed[j];
    }
  }

  /**
   * Unpacking the buffer that packing produced, with no reduction in
   * between, restores every gradient.
   */
  lemma {:induction false} UnpackPackUpTo(values: seq<seq<int>>, infos: seq<GradInfo>, packed: seq<nat>, k: nat)
    requires Shaped(values, infos) && Indices(packed, |infos|) && k <= |packed|
    ensures UnpackUpTo(Pack(values, infos, packed), values, infos, packed, k) == values
  {
    if k > 0 {
      UnpackPackUpTo(values, infos, packed, k - 1);
      PackSlice(values, infos, packed, k - 1, |packed|);
      var i := packed[k - 1];
      assert values[i := values[i]] == values;
    }
  }

  lemma UnpackPackRoundTrip(values: seq<seq<int>>, infos: seq<GradInfo>, packed: seq<nat>)
    requires Shaped(values, infos) && Indices(packed, |infos|)
    ensures Unpack(Pack(values, infos, packed), values, infos, packed) == values
  {
    UnpackPackUpTo(values, infos, packed, |packed|);
  }

  /**
   * Packing then unpacking any buffer touches nothing but the packed
   * gradients, and gives each packed gradient back its own shape.
   */
  lemma UnpackKeepsShape(buffer: seq<int>, values: seq<seq<int>>, infos: seq<GradInfo>, packed: seq<nat>, i: nat)
    requires Shaped(values, infos) && Indices(packed, |infos|)
    requires |buffer| == PackedElements(infos, packed)
    requires i < |values|
    ensures |Unpack(buffer, values, infos, packed)[i]| == |values[i]|
    ensures i !in packed ==> Unpack(buffer, values, infos, packed)[i] == values[i]
  {
    if i !in packed {
      assert packed[..|packed|] == packed;
      UnpackLeavesOthers(buffer, values, infos, packed, |packed|, i);
    }
  }

  /** Packing zeroed gradients gives a zeroed buffer. */
  lemma PackZeros(values: seq<seq<int>>, infos: seq<GradInfo>, packed: seq<nat>, q: nat)
    requires Shaped(values, infos) && Indices(packed, |infos|)
    requires forall i :: 0 <= i < |values| ==> values[i] == Zeros(|values[i]|)
    requires q < PackedElements(infos, packed)
    ensures Pack(values, infos, packed)[q] == 0
  {
    var k := SliceOfPosition(infos, packed, q);
    var t := q - Offset(infos, packed, k);
    PackAt(values, infos, packed, k, t);
  }
}
