/**
 * The loop of the host-staged reduction branch, stepping the three
 * counters of the transfer pipeline over the aggregation list.
 */
module HostTransfers {
  import opened Shapes
  import opened Layout
  import opened Pipeline

  /**
   * Branch 1 of the reduction step. The first entry is copied to host
   * buffer 0 before the loop; step i starts the copy of entry i (if any),
   * waits for the copy of entry i-1, reduces it and starts its copy back;
   * the copies back are awaited after the loop, one per reduction. The
   * element count of an entry is looked up from its slot, the packed size
   * for the sentinel.
   */
  method RunHostTransfers(infos: seq<GradInfo>, packedSize: nat, slots: seq<Slot>)
    returns (trace: seq<Event>, allReduceIndex: nat)
    requires forall a :: 0 < a < |slots| ==> slots[a] != PackedBuffer
    ensures trace == Schedule(slots, SlotCounts(infos, packedSize, slots))
    ensures allReduceIndex == |slots|
    ensures forall e :: e in trace ==> BufferOf(e) < |slots|
    ensures forall e :: e in trace && e.CopyToHost? ==>
      e.buffer < |slots| && e.count == SlotCounts(infos, packedSize, slots)[e.buffer]
  {
    ghost var counts := SlotCounts(infos, packedSize, slots);
    var n := |slots|;
    trace := [];
    allReduceIndex := 0;
    if n > 0 {
      var gpuToCpuIndex := 0;
      var cpuToGpuIndex := 0;
      var current := slots[0];
      var next: Slot := Gradient(0);
      var copySource: Slot := PackedBuffer;
      if current != PackedBuffer {
        copySource := current;
      }
      trace := [CopyToHost(gpuToCpuIndex, copySource, SlotCount(infos, packedSize, copySource))];
      gpuToCpuIndex := gpuToCpuIndex + 1;
      var i := 1;
      while i <= n
        invariant 1 <= i <= n + 1
        invariant gpuToCpuIndex == i && allReduceIndex == i - 1
        invariant i <= n ==> current == slots[i - 1]
        invariant trace == LoopTrace(slots, counts, i - 1)
      {
        var step := [];
        if i < n {
          next := slots[i];
          if next != PackedBuffer {
            copySource := next;
          }
          step := step + [CopyToHost(gpuToCpuIndex, copySource, SlotCount(infos, packedSize, copySource))];
        }
        step := step + [AwaitToHost(allReduceIndex)];
        var count := SlotCount(infos, packedSize, current);
        step := step + [AllReduce(allReduceIndex, count)];
        cpuToGpuIndex := allReduceIndex;
        step := step + [CopyToDevice(cpuToGpuIndex, current, count)];
        assert step == StepEvents(slots, counts, i);
        trace := trace + step;
        allReduceIndex := gpuToCpuIndex;
        gpuToCpuIndex := gpuToCpuIndex + 1;
        current := next;
        i := i + 1;
      }
      var w := 0;
      while w < allReduceIndex
        invariant 0 <= w <= allReduceIndex
        invariant trace == LoopTrace(slots, counts, n) + DeviceWaits(w)
      {
        trace := trace + [AwaitToDevice(w)];
        w := w + 1;
        assert DeviceWaits(w) == DeviceWaits(w - 1) + [AwaitToDevice(w - 1)];
      }
    }
    forall e | e in trace
      ensures BufferOf(e) < |slots|
      ensures e.CopyToHost? ==> e.buffer < |slots| && e.count == counts[e.buffer]
    {
      ScheduleUsesOnlyListedBuffers(slots, counts, e);
    }
  }
}
