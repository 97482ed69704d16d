/** What the cascade builder reads of operators, schedules and the architecture, and its pure queries. */
module CascadeModel {

  datatype FmShape = NoShape | FmShape(batch: int, height: int, width: int, depth: int) {
    function Height(): int {
      if NoShape? then 0 else height
    }

    function Depth(): int {
      if NoShape? then 0 else depth
    }
  }

  function MaxShape(a: FmShape, b: FmShape): FmShape {
    if a.NoShape? then b
    else if b.NoShape? then a
    else FmShape(Max(a.batch, b.batch), Max(a.height, b.height), Max(a.width, b.width), Max(a.depth, b.depth))
  }

  function Max(a: int, b: int): (m: int)
    ensures m >= a && m >= b && (m == a || m == b)
  {
    if a < b then b else a
  }

  /** A feature map of an operator, with its tensor. */
  datatype FeatureMap = FeatureMap(shape: FmShape, allocationBytes: nat, inStaging: bool, constant: bool,
                                   requireFullTensor: bool, needsLinearFormat: bool, resampled: bool, format: nat,
                                   dataType: nat, equivalenceId: nat)

  datatype OpType = OpType(id: nat, isConvolution: bool, isConv2D: bool, isElementwise: bool, isPooling: bool,
                           isReduceSum: bool, isLut: bool)

  /**
   * An operator; its index is its place in the schedule. `lastOfm` is the output of its last
   * sub-operation, or its own. `is1To1` and `canReuseIfm` are the answers of the live ranges.
   */
  datatype Op = Op(isNpu: bool, kind: OpType, kernelHeight: nat, kernelWidth: nat, isReordering: bool,
                   ifm: FeatureMap, ofm: FeatureMap, lastOfm: FeatureMap, consumers: seq<nat>, is1To1: bool,
                   canReuseIfm: bool)

  /** The cost of an operator in a schedule. */
  datatype OpInfo = OpInfo(stripe: FmShape, stripeInput: FmShape, weightBytes: nat, timeIndex: int,
                           cascade: int, firstInCascade: bool, ofmEquivalenceId: nat)

  /** An operator at one end of a feature map, or none. */
  datatype Neighbour = Operator(index: nat) | None

  datatype Buffer = Buffer(shape: FmShape, sizeBytes: nat)

  const NO_BUFFER := Buffer(NoShape, 0)

  datatype LiveRange = LiveRange(startTime: int, endTime: int, size: int, rangeId: nat)

  const INVALID_RANGE: nat := 0

  datatype Architecture = Architecture(selectiveSpilling: bool, stagingBytes: int,
                                       supportsOperator: OpType -> bool, supportsConvolution: OpType -> bool,
                                       rollingBufferShape: (FmShape, FmShape, nat) -> FmShape,
                                       storageBytes: (FmShape, nat, nat) -> nat)

  datatype CascadeInfo = CascadeInfo(start: nat, end: nat, memUsage: int, localMemUsage: int, buffers: map<nat, Buffer>)

  /** Everything that stays the same while cascades are built. */
  datatype Setting = Setting(arch: Architecture, ops: seq<Op>, nonLocal: map<nat, int>, opLocal: map<nat, int>,
                             liveRanges: map<nat, LiveRange>, spilling: bool, ref: map<nat, OpInfo>,
                             fallback: map<nat, OpInfo>)
  {
    /** Consumers are operators; an operator with a reference cost has a fallback cost. */
    ghost predicate Valid() {
      && (forall p: nat :: p < |ops| ==> Bounded(ops[p].consumers))
      && (forall p: nat :: p in ref ==> p < |ops| && p in fallback)
    }

    predicate Bounded(consumers: seq<nat>) {
      forall k :: 0 <= k < |consumers| ==> consumers[k] < |ops|
    }

    function NonLocalUsage(p: nat): int {
      if p in nonLocal then nonLocal[p] else 0
    }

    function OpLocalUsage(p: nat): int {
      if p in opLocal then opLocal[p] else 0
    }

    function EstimateUncascaded(p: nat): int {
      OpLocalUsage(p) + NonLocalUsage(p)
    }

    /** Operator p may be in a cascade. */
    predicate IsCascadable(p: nat)
      requires p < |ops| && p in ref
    {
      var op := ops[p];
      var ifm, ofm := op.ifm, op.ofm;
      if arch.selectiveSpilling && op.kind.isConvolution && op.kernelHeight == 3 && op.kernelWidth == 3
        && ofm.shape.Depth() > 32 then false
      else if arch.selectiveSpilling
              && ((!ifm.inStaging && ifm.allocationBytes >= arch.stagingBytes)
                  || (!op.kind.isLut && !ofm.inStaging && ofm.allocationBytes >= arch.stagingBytes)
                  || (op.kind.isConv2D && op.kernelHeight == 1 && op.kernelWidth == 1
                      && ifm.allocationBytes + ofm.allocationBytes >= arch.stagingBytes)) then false
      else if ifm.constant || op.isReordering then false
      else
        && ref[p].stripe.Height() < ofm.shape.Height()
        && ((op.kind.isConvolution && arch.supportsConvolution(op.kind) && !ifm.resampled) || op.kind.isElementwise
            || (op.kind.isPooling && !op.kind.isReduceSum) || arch.supportsOperator(op.kind))
    }

    /** Operator p may write its output over its input buffer. */
    predicate CanReuse(p: nat, info: OpInfo, ifmBuffer: Buffer, ofmBuffer: Buffer)
      requires p < |ops|
    {
      var op := ops[p];
      if arch.selectiveSpilling && op.kind.isLut then false
      else op.is1To1 && info.stripeInput == info.stripe && op.canReuseIfm && ifmBuffer == ofmBuffer
    }

    /** The feature map between two operators has to be stored in full. */
    predicate FullTensor(p: nat, c: nat)
      requires p < |ops| && c < |ops|
    {
      ops[p].ofm.requireFullTensor || ops[c].ifm.requireFullTensor
    }

    /** The buffer between a producer and its consumer: the whole feature map, or a rolling buffer. */
    function BufferBetween(p: nat, c: nat): Buffer
      requires p < |ops| && c < |ops| && (!FullTensor(p, c) ==> p in ref && c in ref)
    {
      var ofm, ifm := ops[p].ofm, ops[c].ifm;
      if FullTensor(p, c) then
        Buffer(MaxShape(ofm.shape, ifm.shape), Max(ofm.allocationBytes, ifm.allocationBytes))
      else
        var shape := arch.rollingBufferShape(ref[p].stripe, ref[c].stripeInput, ofm.format);
        Buffer(shape, arch.storageBytes(shape, ofm.format, ofm.dataType))
    }

    /** A buffer is asked for between operators, of which one may be missing. */
    predicate CanAsk(producer: Neighbour, consumer: Neighbour) {
      match (producer, consumer)
      case (Operator(p), Operator(c)) => p < |ops| && c < |ops| && (!FullTensor(p, c) ==> p in ref && c in ref)
      case (Operator(p), None) => p < |ops|
      case (None, Operator(c)) => c < |ops|
      case (None, None) => false
    }

    /** Without a producer or without a single consumer the feature map is stored in full. */
    function BufferFor(producer: Neighbour, consumer: Neighbour): Buffer
      requires CanAsk(producer, consumer)
    {
      match (producer, consumer)
      case (Operator(p), Operator(c)) => BufferBetween(p, c)
      case (Operator(p), None) => Buffer(ops[p].ofm.shape, ops[p].ofm.allocationBytes)
      case (None, Operator(c)) => Buffer(ops[c].ifm.shape, ops[c].ifm.allocationBytes)
    }

    /** The cascade that starts at p is spilled. */
    predicate Spills(p: nat)
      requires p < |ops|
    {
      spilling && (!arch.selectiveSpilling || (!ops[p].ifm.inStaging && !ops[p].ofm.inStaging))
    }

    /** Operator p + 1 is the only consumer of p, and their feature maps fit a rolling buffer. */
    predicate Links(p: nat)
      requires p < |ops|
    {
      && |ops[p].consumers| == 1 && ops[p].consumers[0] == p + 1 && p + 1 < |ops|
      && p + 1 in ref && IsCascadable(p + 1)
      && ops[p].ofm.shape == ops[p + 1].ifm.shape
      && !ops[p + 1].ifm.requireFullTensor && !ops[p].ofm.requireFullTensor
      && !ops[p + 1].ifm.needsLinearFormat && !ops[p].ofm.needsLinearFormat
    }

    /** n operators from s on can run as a cascade. */
    ghost predicate Chain(s: nat, n: nat) {
      && n >= 1 && s + n <= |ops|
      && (forall p: nat :: s <= p < s + n ==> p in ref)
      && (forall p: nat :: s <= p < s + n - 1 ==> Links(p))
    }

    // ---- the footprint of a cascade

    /** The buffer that comes into the k-th operator of a cascade from s. */
    function Incoming(s: nat, k: nat): Buffer
      requires s + k < |ops| && forall p: nat :: s <= p <= s + k ==> p in ref
    {
      if k == 0 then NO_BUFFER else BufferBetween(s + k - 1, s + k)
    }

    /** The buffer that comes into the k-th operator shares the memory of the one before it. */
    predicate Shared(s: nat, k: nat)
      requires k >= 1 && s + k < |ops| && forall p: nat :: s <= p <= s + k ==> p in ref
    {
      CanReuse(s + k - 1, ref[s + k - 1], Incoming(s, k - 1), Incoming(s, k))
    }

    /** Weight buffers, and the rolling buffers that are not shared, of the first n operators. */
    function BuffersSize(s: nat, n: nat): int
      requires n >= 1 && s + n <= |ops| && forall p: nat :: s <= p < s + n ==> p in ref
    {
      if n == 1 then ref[s].weightBytes
      else
        BuffersSize(s, n - 1) + ref[s + n - 1].weightBytes
        + if Shared(s, n - 1) then 0 else Incoming(s, n - 1).sizeBytes
    }

    /** The whole feature map, as far as it stays in staging memory. */
    function Stored(fm: FeatureMap): nat {
      if fm.inStaging then fm.allocationBytes else 0
    }

    /** The footprint of a cascade: its buffers, and the end tensors unless it is spilled. */
    function LocalSize(s: nat, n: nat): int
      requires n >= 1 && s + n <= |ops| && forall p: nat :: s <= p < s + n ==> p in ref
    {
      if Spills(s) then BuffersSize(s, n) else Stored(ops[s].ifm) + BuffersSize(s, n) + Stored(ops[s + n - 1].lastOfm)
    }

    // ---- memory used beside a cascade

    function StartRange(s: nat): LiveRange
      requires s < |ops|
    {
      var id := ops[s].ifm.equivalenceId;
      if id in liveRanges then liveRanges[id] else LiveRange(1, 0, 0, INVALID_RANGE)
    }

    predicate InStartRange(s: nat, fm: FeatureMap)
      requires s < |ops|
    {
      fm.equivalenceId in liveRanges && liveRanges[fm.equivalenceId].rangeId == StartRange(s).rangeId
    }

    /** The k-th operator works in the live range of the first input. */
    predicate RangeAlreadyLocal(s: nat, k: nat)
      requires s + k < |ops|
    {
      var r := StartRange(s);
      r.size > 0 && r.rangeId != INVALID_RANGE
        && (InStartRange(s, ops[s + k].ifm) || InStartRange(s, ops[s + k].lastOfm))
    }

    predicate InRange(s: nat, p: nat)
      requires s < |ops| && p in ref
    {
      var r := StartRange(s);
      r.size > 0 && r.startTime <= ref[p].timeIndex <= r.endTime
    }

    /** The most memory used beside operators 1 to n - 1 of the cascade while the first input is live, without it. */
    function ActiveMax(s: nat, n: nat): int
      requires n >= 1 && s + n <= |ops| && forall p: nat :: s <= p < s + n ==> p in ref
    {
      if n == 1 then 0
      else
        var before, used := ActiveMax(s, n - 1), Max(0, NonLocalUsage(s + n - 1));
        if !InRange(s, s + n - 1) then before
        else Max(before, if RangeAlreadyLocal(s, n - 1) then used else Max(0, used - StartRange(s).size))
    }

    /** The most memory used beside the first n operators while the first input is not live. */
    function InactiveMax(s: nat, n: nat): int
      requires n >= 1 && s + n <= |ops| && forall p: nat :: s <= p < s + n ==> p in ref
    {
      var before, used := if n == 1 then 0 else InactiveMax(s, n - 1), Max(0, NonLocalUsage(s + n - 1));
      if InRange(s, s + n - 1) then before else Max(before, used)
    }

    function SegmentNonLocal(s: nat, n: nat): int
      requires n >= 1 && s + n <= |ops| && forall p: nat :: s <= p < s + n ==> p in ref
    {
      Max(InactiveMax(s, n), Max(Max(0, NonLocalUsage(s)), ActiveMax(s, n)))
    }

    /** What a cascade uses altogether. */
    function CascadeSize(s: nat, n: nat): int
      requires n >= 1 && s + n <= |ops| && forall p: nat :: s <= p < s + n ==> p in ref
    {
      if Spills(s) then LocalSize(s, n) else LocalSize(s, n) + SegmentNonLocal(s, n)
    }
  }
}
