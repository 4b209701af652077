/**
 * The values the gradient aggregator works on: the shape of a gradient
 * matrix, the entries of the aggregation list, the distributed gradient
 * header, errors, and the device/communication configuration that picks
 * the aggregation branch.
 */
module Shapes {

  /** Shape and storage kind of one gradient matrix. */
  datatype GradInfo = GradInfo(rows: nat, cols: nat, dense: bool)

  /** Matrix::GetNumElements. */
  function NumElements(g: GradInfo): (r: nat)
    ensures r == 0 <==> g.rows == 0 || g.cols == 0
  {
    g.rows * g.cols
  }

  /**
   * An entry of the aggregation list. The source stores `size_t` indices and
   * reserves `(size_t)-1` for the packed buffer; here that sentinel is its own
   * constructor.
   */
  datatype Slot = PackedBuffer | Gradient(index: nat)

  /**
   * The per-node statistics sent with the gradients. The criterion and the
   * evaluation errors are floating point in the source; they are integers here.
   */
  datatype Header = Header(
    numSamples: nat,
    numSamplesWithLabel: nat,
    criterion: int,
    evalErrors: seq<(int, nat)>)

  /**
   * What the source asserts of the header of a node that processed no
   * samples: no criterion, no labelled samples, no evaluation errors.
   */
  predicate NoSampleStatistics(h: Header)
  {
    h.criterion == 0 && h.numSamplesWithLabel == 0 &&
    forall i :: 0 <= i < |h.evalErrors| ==> h.evalErrors[i] == (0, 0)
  }

  /** DistGradHeader::Clear: every count zero, the number of evaluation nodes kept. */
  function Cleared(h: Header): (r: Header)
    ensures r.numSamples == 0 && NoSampleStatistics(r)
    ensures |r.evalErrors| == |h.evalErrors|
  {
    Header(0, 0, 0, seq(|h.evalErrors|, _ => (0, 0)))
  }

  /** A freshly created header for `numEvalNodes` evaluation nodes, cleared. */
  function ClearedHeader(numEvalNodes: nat): (r: Header)
    ensures r.numSamples == 0 && NoSampleStatistics(r)
    ensures |r.evalErrors| == numEvalNodes
  {
    Header(0, 0, 0, seq(numEvalNodes, _ => (0, 0)))
  }

  datatype Option<T> = None | Some(value: T)

  datatype Error = RuntimeError(message: string) | LogicError(message: string)

  datatype Outcome = Pass | Fail(error: Error)

  datatype Result<T> = Ok(value: T) | Err(error: Error)

  /**
   * What the aggregator learns from the device and the communication
   * libraries: whether the gradients live on the CPU, whether NCCL is
   * usable, and whether MPI uses GPUDirect RDMA.
   */
  datatype Config = Config(deviceIsCpu: bool, ncclSupported: bool, useGpuGdr: bool)

  /**
   * ShouldCopyDataToCPU: data is staged through host buffers only when it
   * lives on a GPU and neither NCCL nor GPUDirect RDMA can reach it.
   */
  function ShouldCopyDataToCPU(c: Config): (r: bool)
    ensures r <==> !c.deviceIsCpu && !c.ncclSupported && !c.useGpuGdr
  {
    if c.deviceIsCpu then false
    else if c.ncclSupported || c.useGpuGdr then false
    else true
  }

  /** A gradient of `n` elements after SetValue(0). */
  function Zeros(n: nat): (r: seq<int>)
    ensures |r| == n && forall t :: 0 <= t < n ==> r[t] == 0
  {
    seq(n, _ => 0)
  }
}
