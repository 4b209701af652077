/**
 * The device-to-host transfer pipeline used when gradients live on a GPU
 * that neither NCCL nor GPUDirect RDMA can reach: entry k of the
 * aggregation list is copied into host buffer k, reduced there and copied
 * back, and the copy of entry k+1 is already under way while entry k is
 * reduced. The schedule is described by the events it issues.
 */
module Pipeline {
  import opened Shapes

  datatype Event =
    | CopyToHost(buffer: nat, source: Slot, count: nat)     // the first, synchronous copy, or CopyGPUToCPUAsync
    | AwaitToHost(buffer: nat)                               // WaitForCopyGPUToCPUAsync
    | AllReduce(buffer: nat, count: nat)                     // the blocking all-reduce on a host buffer
    | CopyToDevice(buffer: nat, target: Slot, count: nat)    // CopyCPUToGPUAsync
    | AwaitToDevice(buffer: nat)                             // WaitForCopyCPUToGPUAsync


  function BufferOf(e: Event): nat
  {
    match e
    case CopyToHost(b, _, _) => b
    case AwaitToHost(b) => b
    case AllReduce(b, _) => b
    case CopyToDevice(b, _, _) => b
    case AwaitToDevice(b) => b
  }

  /** What loop step i (1 <= i <= n) issues. */
  function StepEvents(slots: seq<Slot>, counts: seq<nat>, i: nat): (r: seq<Event>)
    requires |counts| == |slots| && 1 <= i <= |slots|
    ensures |r| == if i < |slots| then 4 else 3
  {
    (if i < |slots| then [CopyToHost(i, slots[i], counts[i])] else []) +
    [AwaitToHost(i - 1), AllReduce(i - 1, counts[i - 1]), CopyToDevice(i - 1, slots[i - 1], counts[i - 1])]
  }

  /** The events up to the end of loop step i; step 0 is the first, synchronous copy. */
  function LoopTrace(slots: seq<Slot>, counts: seq<nat>, i: nat): (r: seq<Event>)
    requires |counts| == |slots| && 1 <= |slots| && i <= |slots|
    ensures |r| >= 1 && r[0] == CopyToHost(0, slots[0], counts[0])
  {
    if i == 0 then [CopyToHost(0, slots[0], counts[0])]
    else LoopTrace(slots, counts, i - 1) + StepEvents(slots, counts, i)
  }

  /** The final wait for the copies back to the device, one per reduction. */
  function DeviceWaits(n: nat): (r: seq<Event>)
    ensures |r| == n && forall k :: 0 <= k < n ==> r[k] == AwaitToDevice(k)
  {
    seq(n, k requires 0 <= k < n => AwaitToDevice(k))
  }

  /** The whole schedule for an aggregation list with the given element counts. */
  function Schedule(slots: seq<Slot>, counts: seq<nat>): (r: seq<Event>)
    requires |counts| == |slots|
    ensures |r| == 5 * |slots|
  {
    if |slots| == 0 then []
    else
      LoopTraceLength(slots, counts, |slots|);
      LoopTrace(slots, counts, |slots|) + DeviceWaits(|slots|)
  }

  /** The reductions of a trace, in order. */
  function Reductions(trace: seq<Event>): (r: seq<Event>)
    ensures forall k :: 0 <= k < |r| ==> r[k].AllReduce?
  {
    if trace == [] then []
    else Reductions(trace[..|trace| - 1]) + (if trace[|trace| - 1].AllReduce? then [trace[|trace| - 1]] else [])
  }

  /** The events of a trace that use host buffer b, in order. */
  function EventsOn(trace: seq<Event>, b: nat): (r: seq<Event>)
    ensures forall k :: 0 <= k < |r| ==> BufferOf(r[k]) == b
  {
    if trace == [] then []
    else EventsOn(trace[..|trace| - 1], b) + (if BufferOf(trace[|trace| - 1]) == b then [trace[|trace| - 1]] else [])
  }

  /** The life of host buffer b: filled, awaited, reduced, copied back, awaited. */
  function Lifecycle(slots: seq<Slot>, counts: seq<nat>, b: nat): seq<Event>
    requires |counts| == |slots| && b < |slots|
  {
    [CopyToHost(b, slots[b], counts[b]), AwaitToHost(b), AllReduce(b, counts[b]),
     CopyToDevice(b, slots[b], counts[b]), AwaitToDevice(b)]
  }

  lemma {:induction false} ReductionsAppend(a: seq<Event>, b: seq<Event>)
    ensures Reductions(a + b) == Reductions(a) + Reductions(b)
    decreases |b|
  {
    if b == [] {
      assert a + b == a;
    } else {
      var front := b[..|b| - 1];
      assert (a + b)[..|a + b| - 1] == a + front;
      ReductionsAppend(a, front);
    }
  }

  lemma {:induction false} EventsOnAppend(a: seq<Event>, c: seq<Event>, b: nat)
    ensures EventsOn(a + c, b) == EventsOn(a, b) + EventsOn(c, b)
    decreases |c|
  {
    if c == [] {
      assert a + c == a;
    } else {
      var front := c[..|c| - 1];
      assert (a + c)[..|a + c| - 1] == a + front;
      EventsOnAppend(a, front, b);
    }
  }

  lemma ReductionsOfShort(x: Event, y: Event, z: Event, w: Event)
    ensures Reductions([x]) == (if x.AllReduce? then [x] else [])
    ensures Reductions([x, y, z]) == Reductions([x]) + Reductions([y]) + Reductions([z])
    ensures Reductions([w, x, y, z]) == Reductions([w]) + Reductions([x, y, z])
  {
    assert [x][..0] == [];
    ReductionsAppend([x], [y]);
    ReductionsAppend([x, y], [z]);
    assert [x] + [y] == [x, y];
    assert [x, y] + [z] == [x, y, z];
    ReductionsAppend([w], [x, y, z]);
    assert [w] + [x, y, z] == [w, x, y, z];
  }

  /** Loop step i reduces exactly entry i-1. */
  lemma StepReductions(slots: seq<Slot>, counts: seq<nat>, i: nat)
    requires |counts| == |slots| && 1 <= i <= |slots|
    ensures Reductions(StepEvents(slots, counts, i)) == [AllReduce(i - 1, counts[i - 1])]
  {
    var w := AwaitToHost(i - 1);
    var r := AllReduce(i - 1, counts[i - 1]);
    var d := CopyToDevice(i - 1, slots[i - 1], counts[i - 1]);
    if i < |slots| {
      var h := CopyToHost(i, slots[i], counts[i]);
      assert StepEvents(slots, counts, i) == [h, w, r, d];
      ReductionsOfShort(w, r, d, h);
      ReductionsOfShort(h, r, d, h);
    } else {
      assert StepEvents(slots, counts, i) == [w, r, d];
      ReductionsOfShort(w, r, d, w);
      ReductionsOfShort(r, r, d, w);
      ReductionsOfShort(d, r, d, w);
    }
  }

  /** After loop step i, exactly the entries 0 .. i-1 have been reduced, in order. */
  lemma {:induction false} LoopReductions(slots: seq<Slot>, counts: seq<nat>, i: nat)
    requires |counts| == |slots| && 1 <= |slots| && i <= |slots|
    ensures Reductions(LoopTrace(slots, counts, i)) == seq(i, k requires 0 <= k < i => AllReduce(k, counts[k]))
  {
    if i == 0 {
      var first := CopyToHost(0, slots[0], counts[0]);
      ReductionsOfShort(first, first, first, first);
    } else {
      LoopReductions(slots, counts, i - 1);
      ReductionsAppend(LoopTrace(slots, counts, i - 1), StepEvents(slots, counts, i));
      StepReductions(slots, counts, i);
      var before := seq(i - 1, k requires 0 <= k < i - 1 => AllReduce(k, counts[k]));
      assert Reductions(LoopTrace(slots, counts, i)) == before + [AllReduce(i - 1, counts[i - 1])];
      assert before + [AllReduce(i - 1, counts[i - 1])] == seq(i, k requires 0 <= k < i => AllReduce(k, counts[k]));
    }
  }

  lemma {:induction false} DeviceWaitsReduceNothing(n: nat)
    ensures Reductions(DeviceWaits(n)) == []
  {
    if n > 0 {
      assert DeviceWaits(n)[..n - 1] == DeviceWaits(n - 1);
      DeviceWaitsReduceNothing(n - 1);
    }
  }

  /**
   * Every entry of the aggregation list is reduced exactly once, in list
   * order; reduction k uses host buffer k and entry k's element count.
   */
  lemma ScheduleReducesEachEntryOnceInOrder(slots: seq<Slot>, counts: seq<nat>)
    requires |counts| == |slots|
    ensures Reductions(Schedule(slots, counts)) == seq(|slots|, k requires 0 <= k < |slots| => AllReduce(k, counts[k]))
  {
    if |slots| > 0 {
      LoopReductions(slots, counts, |slots|);
      DeviceWaitsReduceNothing(|slots|);
      ReductionsAppend(LoopTrace(slots, counts, |slots|), DeviceWaits(|slots|));
    }
  }

  /** What the loop has done to host buffer b by the end of step i. */
  function LifecycleSoFar(slots: seq<Slot>, counts: seq<nat>, b: nat, i: nat): seq<Event>
    requires |counts| == |slots| && i <= |slots|
  {
    if b < i then Lifecycle(slots, counts, b)[..4]
    else if b == i && b < |slots| then [CopyToHost(b, slots[b], counts[b])]
    else []
  }

  lemma EventsOnSingle(x: Event, b: nat)
    ensures EventsOn([x], b) == if BufferOf(x) == b then [x] else []
  {
    assert [x][..0] == [];
  }

  lemma EventsOnCons(x: Event, t: seq<Event>, b: nat)
    ensures EventsOn([x] + t, b) == (if BufferOf(x) == b then [x] else []) + EventsOn(t, b)
  {
    EventsOnAppend([x], t, b);
    EventsOnSingle(x, b);
  }

  /** Waiting for, reducing and copying back buffer i-1 touches that buffer only. */
  lemma DrainEventsOn(slots: seq<Slot>, counts: seq<nat>, i: nat, b: nat)
    requires |counts| == |slots| && 1 <= i <= |slots|
    ensures EventsOn([AwaitToHost(i - 1), AllReduce(i - 1, counts[i - 1]), CopyToDevice(i - 1, slots[i - 1], counts[i - 1])], b) ==
      if b == i - 1 then [AwaitToHost(b), AllReduce(b, counts[b]), CopyToDevice(b, slots[b], counts[b])] else []
  {
    var w := AwaitToHost(i - 1);
    var r := AllReduce(i - 1, counts[i - 1]);
    var d := CopyToDevice(i - 1, slots[i - 1], counts[i - 1]);
    EventsOnSingle(d, b);
    EventsOnCons(r, [d], b);
    assert [r] + [d] == [r, d];
    EventsOnCons(w, [r, d], b);
    assert [w] + [r, d] == [w, r, d];
  }

  /** Step i touches buffer i-1 (wait, reduce, copy back) and starts filling buffer i. */
  lemma StepEventsOn(slots: seq<Slot>, counts: seq<nat>, i: nat, b: nat)
    requires |counts| == |slots| && 1 <= i <= |slots|
    ensures EventsOn(StepEvents(slots, counts, i), b) ==
      if b == i - 1 then [AwaitToHost(b), AllReduce(b, counts[b]), CopyToDevice(b, slots[b], counts[b])]
      else if b == i && i < |slots| then [CopyToHost(b, slots[b], counts[b])]
      else []
  {
    var drain := [AwaitToHost(i - 1), AllReduce(i - 1, counts[i - 1]), CopyToDevice(i - 1, slots[i - 1], counts[i - 1])];
    DrainEventsOn(slots, counts, i, b);
    if i < |slots| {
      var h := CopyToHost(i, slots[i], counts[i]);
      assert StepEvents(slots, counts, i) == [h] + drain;
      EventsOnCons(h, drain, b);
    } else {
      assert StepEvents(slots, counts, i) == drain;
    }
  }

  /** One more loop step extends what buffer b has seen by that step's events on b. */
  lemma LifecycleSoFarStep(slots: seq<Slot>, counts: seq<nat>, b: nat, i: nat)
    requires |counts| == |slots| && 1 <= i <= |slots|
    ensures LifecycleSoFar(slots, counts, b, i - 1) + EventsOn(StepEvents(slots, counts, i), b) == LifecycleSoFar(slots, counts, b, i)
  {
    StepEventsOn(slots, counts, i, b);
    if b == i - 1 {
      assert Lifecycle(slots, counts, b)[..4] ==
        [CopyToHost(b, slots[b], counts[b])] + [AwaitToHost(b), AllReduce(b, counts[b]), CopyToDevice(b, slots[b], counts[b])];
    } else if b < i - 1 {
      assert LifecycleSoFar(slots, counts, b, i - 1) + [] == LifecycleSoFar(slots, counts, b, i - 1);
    } else {
      assert [] + LifecycleSoFar(slots, counts, b, i) == LifecycleSoFar(slots, counts, b, i);
    }
  }

  lemma {:induction false} LoopEventsOn(slots: seq<Slot>, counts: seq<nat>, i: nat, b: nat)
    requires |counts| == |slots| && 1 <= |slots| && i <= |slots|
    ensures EventsOn(LoopTrace(slots, counts, i), b) == LifecycleSoFar(slots, counts, b, i)
  {
    if i == 0 {
      EventsOnSingle(CopyToHost(0, slots[0], counts[0]), b);
    } else {
      LoopEventsOn(slots, counts, i - 1, b);
      EventsOnAppend(LoopTrace(slots, counts, i - 1), StepEvents(slots, counts, i), b);
      LifecycleSoFarStep(slots, counts, b, i);
    }
  }

  lemma {:induction false} DeviceWaitsOn(n: nat, b: nat)
    ensures EventsOn(DeviceWaits(n), b) == if b < n then [AwaitToDevice(b)] else []
  {
    if n > 0 {
      var front := DeviceWaits(n)[..n - 1];
      assert front == DeviceWaits(n - 1);
      DeviceWaitsOn(n - 1, b);
      EventsOnAppend(front, [AwaitToDevice(n - 1)], b);
      assert DeviceWaits(n) == front + [AwaitToDevice(n - 1)];
      EventsOnSingle(AwaitToDevice(n - 1), b);
    }
  }

  /**
   * Each host buffer in use goes through its whole life exactly once and in
   * order: filled from its entry, awaited, reduced, copied back to its
   * entry and awaited. No other buffer is touched.
   */
  lemma ScheduleBufferLifecycle(slots: seq<Slot>, counts: seq<nat>, b: nat)
    requires |counts| == |slots|
    ensures EventsOn(Schedule(slots, counts), b) == if b < |slots| then Lifecycle(slots, counts, b) else []
  {
    if |slots| > 0 {
      LoopEventsOn(slots, counts, |slots|, b);
      DeviceWaitsOn(|slots|, b);
      EventsOnAppend(LoopTrace(slots, counts, |slots|), DeviceWaits(|slots|), b);
    }
  }

  /** The length of the trace up to the end of step i. */
  lemma {:induction false} LoopTraceLength(slots: seq<Slot>, counts: seq<nat>, i: nat)
    requires |counts| == |slots| && 1 <= |slots| && i <= |slots|
    ensures |LoopTrace(slots, counts, i)| == if i < |slots| then 4 * i + 1 else 4 * i
  {
    if i > 0 {
      LoopTraceLength(slots, counts, i - 1);
    }
  }

  /**
   * The overlap: in step k+1 the copy of entry k+1 to the host is issued
   * before the wait for entry k's copy and before entry k is reduced.
   */
  lemma {:induction false} ScheduleOverlaps(slots: seq<Slot>, counts: seq<nat>, k: nat, m: nat)
    requires |counts| == |slots| && k + 1 < |slots| && k + 1 <= m <= |slots|
    ensures |LoopTrace(slots, counts, m)| > 4 * k + 3
    ensures LoopTrace(slots, counts, m)[4 * k + 1] == CopyToHost(k + 1, slots[k + 1], counts[k + 1])
    ensures LoopTrace(slots, counts, m)[4 * k + 2] == AwaitToHost(k)
    ensures LoopTrace(slots, counts, m)[4 * k + 3] == AllReduce(k, counts[k])
  {
    LoopTraceLength(slots, counts, k);
    LoopTraceLength(slots, counts, m);
    if m > k + 1 {
      LoopTraceLength(slots, counts, m - 1);
      ScheduleOverlaps(slots, counts, k, m - 1);
    } else {
      assert StepEvents(slots, counts, k + 1) ==
        [CopyToHost(k + 1, slots[k + 1], counts[k + 1]), AwaitToHost(k), AllReduce(k, counts[k]),
         CopyToDevice(k, slots[k], counts[k])];
    }
  }

  lemma {:induction false} InEventsOn(trace: seq<Event>, e: Event)
    requires e in trace
    ensures e in EventsOn(trace, BufferOf(e))
  {
    var last := trace[|trace| - 1];
    if e != last {
      assert trace == trace[..|trace| - 1] + [last];
      InEventsOn(trace[..|trace| - 1], e);
    }
  }

  /**
   * Every event of the schedule uses a host buffer that belongs to an entry
   * of the list, and carries exactly that entry's element count.
   */
  lemma ScheduleUsesOnlyListedBuffers(slots: seq<Slot>, counts: seq<nat>, e: Event)
    requires |counts| == |slots| && e in Schedule(slots, counts)
    ensures BufferOf(e) < |slots| && e in Lifecycle(slots, counts, BufferOf(e))
  {
    InEventsOn(Schedule(slots, counts), e);
    ScheduleBufferLifecycle(slots, counts, BufferOf(e));
  }
}
