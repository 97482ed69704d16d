/**
 * What the cascade builder decides and records, in the attributes of operators, schedules and live ranges
 * that it reads.
 */
module CascadeAttributes {
  import opened CascadeModel
  import opened CascadeChoice
  import opened CascadeRecords
  import opened Folding
  import opened Sequences

  // ---- queries

  /** When an operator may write its output over its input. */
  lemma ReuseInAttributes(c: Setting, p: nat, info: OpInfo, ifm: Buffer, ofm: Buffer)
    requires p < |c.ops|
    ensures c.CanReuse(p, info, ifm, ofm)
            <==> !(c.arch.selectiveSpilling && c.ops[p].kind.isLut) && c.ops[p].is1To1
                 && info.stripeInput == info.stripe && c.ops[p].canReuseIfm
                 && ifm.shape == ofm.shape && ifm.sizeBytes == ofm.sizeBytes
  {
  }

  /**
   * When an operator may be in a cascade. It is striped, and a convolution without resampling, elementwise,
   * a pooling but no sum, or of another supported kind; constants and reorderings are excluded, and so are,
   * when spilling selectively, deep 3x3 convolutions and operators whose feature maps exceed staging.
   */
  lemma CascadableInAttributes(c: Setting, p: nat)
    requires p < |c.ops| && p in c.ref
    ensures var op, staging := c.ops[p], c.arch.stagingBytes;
            c.IsCascadable(p)
            <==> && c.ref[p].stripe.Height() < op.ofm.shape.Height()
                 && ((op.kind.isConvolution && c.arch.supportsConvolution(op.kind) && !op.ifm.resampled)
                     || op.kind.isElementwise || (op.kind.isPooling && !op.kind.isReduceSum)
                     || c.arch.supportsOperator(op.kind))
                 && !op.ifm.constant && !op.isReordering
                 && (c.arch.selectiveSpilling ==>
                       && !(op.kind.isConvolution && op.kernelHeight == 3 && op.kernelWidth == 3
                            && op.ofm.shape.Depth() > 32)
                       && (op.ifm.inStaging || op.ifm.allocationBytes < staging)
                       && (op.kind.isLut || op.ofm.inStaging || op.ofm.allocationBytes < staging)
                       && !(op.kind.isConv2D && op.kernelHeight == 1 && op.kernelWidth == 1
                            && op.ifm.allocationBytes + op.ofm.allocationBytes >= staging))
  {
  }

  /** When the next operator can follow: it is the only consumer, cascadable, and both feature maps can roll. */
  lemma LinkInAttributes(c: Setting, p: nat)
    requires p < |c.ops|
    ensures c.Links(p)
            <==> c.ops[p].consumers == [p + 1] && p + 1 < |c.ops| && p + 1 in c.ref && c.IsCascadable(p + 1)
                 && c.ops[p].ofm.shape == c.ops[p + 1].ifm.shape
                 && !c.ops[p].ofm.requireFullTensor && !c.ops[p + 1].ifm.requireFullTensor
                 && !c.ops[p].ofm.needsLinearFormat && !c.ops[p + 1].ifm.needsLinearFormat
  {
  }

  /**
   * The buffer between two operators: where either feature map has to be whole, the larger extents and size;
   * else a rolling one between their stripes. Without a neighbour it is the whole feature map.
   */
  lemma BufferInAttributes(c: Setting, p: nat, q: nat)
    requires p < |c.ops| && q < |c.ops|
    ensures c.BufferFor(Operator(p), None) == Buffer(c.ops[p].ofm.shape, c.ops[p].ofm.allocationBytes)
    ensures c.BufferFor(None, Operator(q)) == Buffer(c.ops[q].ifm.shape, c.ops[q].ifm.allocationBytes)
    ensures c.ops[p].ofm.requireFullTensor || c.ops[q].ifm.requireFullTensor ==>
              var a, b, buffer := c.ops[p].ofm, c.ops[q].ifm, c.BufferFor(Operator(p), Operator(q));
              && buffer.sizeBytes == Max(a.allocationBytes, b.allocationBytes)
              && (a.shape.NoShape? ==> buffer.shape == b.shape) && (b.shape.NoShape? ==> buffer.shape == a.shape)
              && (a.shape.FmShape? && b.shape.FmShape? ==>
                    buffer.shape == FmShape(Max(a.shape.batch, b.shape.batch), Max(a.shape.height, b.shape.height),
                                            Max(a.shape.width, b.shape.width), Max(a.shape.depth, b.shape.depth)))
    ensures !c.ops[p].ofm.requireFullTensor && !c.ops[q].ifm.requireFullTensor && p in c.ref && q in c.ref ==>
              var ofm := c.ops[p].ofm;
              var shape := c.arch.rollingBufferShape(c.ref[p].stripe, c.ref[q].stripeInput, ofm.format);
              c.BufferFor(Operator(p), Operator(q))
              == Buffer(shape, c.arch.storageBytes(shape, ofm.format, ofm.dataType))
  {
  }

  // ---- sizes

  /** Whether a cascade is spilled depends on its first operator. */
  lemma SpillsInAttributes(c: Setting, s: nat)
    requires s < |c.ops|
    ensures c.Spills(s)
            <==> c.spilling && (c.arch.selectiveSpilling ==> !c.ops[s].ifm.inStaging && !c.ops[s].ofm.inStaging)
  {
  }

  /** A first operator adds its weights; another one its weights, and its rolling buffer unless it is shared. */
  lemma BuffersInAttributes(c: Setting, s: nat, n: nat)
    requires c.Chain(s, n)
    ensures n == 1 ==> c.BuffersSize(s, n) == c.ref[s].weightBytes
    ensures n == 2 ==>
              var p, rolling := s, c.BufferBetween(s, s + 1);
              c.BuffersSize(s, n)
              == c.ref[s].weightBytes + c.ref[s + 1].weightBytes
                 + if !(c.arch.selectiveSpilling && c.ops[p].kind.isLut) && c.ops[p].is1To1
                      && c.ref[p].stripeInput == c.ref[p].stripe && c.ops[p].canReuseIfm
                      && rolling == Buffer(NoShape, 0) then 0 else rolling.sizeBytes
    ensures n > 2 ==>
              var p: nat, before, rolling := s + n - 2, c.BufferBetween(s + n - 3, s + n - 2),
                                             c.BufferBetween(s + n - 2, s + n - 1);
              c.BuffersSize(s, n)
              == c.BuffersSize(s, n - 1) + c.ref[s + n - 1].weightBytes
                 + if !(c.arch.selectiveSpilling && c.ops[p].kind.isLut) && c.ops[p].is1To1
                      && c.ref[p].stripeInput == c.ref[p].stripe && c.ops[p].canReuseIfm
                      && before == rolling then 0 else rolling.sizeBytes
  {
    if n > 1 {
      assert c.Links(s + n - 2);
    }
    if n == 2 {
      assert c.BuffersSize(s, 1) == c.ref[s].weightBytes;
    }
  }

  /** The size of a cascade counts its ends in staging and what is used beside it, unless it is spilled. */
  lemma CascadeInAttributes(c: Setting, s: nat, n: nat)
    requires c.Chain(s, n)
    ensures c.Spills(s) ==> c.CascadeSize(s, n) == c.LocalSize(s, n) == c.BuffersSize(s, n)
    ensures !c.Spills(s) ==>
              && c.CascadeSize(s, n) == c.LocalSize(s, n) + c.SegmentNonLocal(s, n)
              && c.LocalSize(s, n)
                 == c.BuffersSize(s, n) + (if c.ops[s].ifm.inStaging then c.ops[s].ifm.allocationBytes else 0)
                    + if c.ops[s + n - 1].lastOfm.inStaging then c.ops[s + n - 1].lastOfm.allocationBytes else 0
  {
  }

  /**
   * What is used beside a cascade is the most that any of its operators uses. While the first input is live,
   * its size is taken off, unless the operator works in its live range; the first operator counts in full.
   */
  lemma BesideInAttributes(c: Setting, s: nat, n: nat)
    requires c.Chain(s, n)
    ensures var p: nat := s + n - 1;
            var used := if p in c.nonLocal && c.nonLocal[p] > 0 then c.nonLocal[p] else 0;
            && (n == 1 ==> c.SegmentNonLocal(s, n) == used)
            && (n > 1 ==>
                  var id := c.ops[s].ifm.equivalenceId;
                  var ifm, ofm := c.ops[p].ifm.equivalenceId, c.ops[p].lastOfm.equivalenceId;
                  var live := id in c.liveRanges && c.liveRanges[id].size > 0
                              && c.liveRanges[id].startTime <= c.ref[p].timeIndex <= c.liveRanges[id].endTime;
                  var fused := id in c.liveRanges && c.liveRanges[id].rangeId != 0
                               && ((ifm in c.liveRanges && c.liveRanges[ifm].rangeId == c.liveRanges[id].rangeId)
                                   || (ofm in c.liveRanges && c.liveRanges[ofm].rangeId == c.liveRanges[id].rangeId));
                  var beside := if !live || fused then used else Max(0, used - c.liveRanges[id].size);
                  c.SegmentNonLocal(s, n) == Max(c.SegmentNonLocal(s, n - 1), beside))
  {
  }

  // ---- the search

  /** With its whole feature maps in staging an operator uses its input, its output unless aliased, and the rest. */
  lemma WholeInAttributes(c: Setting, p: nat)
    requires p < |c.ops| && p in c.fallback
    ensures var op, info := c.ops[p], c.fallback[p];
            WholeInStaging(c, p)
            == op.ifm.allocationBytes + (if p in c.nonLocal then c.nonLocal[p] else 0)
               + if !(c.arch.selectiveSpilling && op.kind.isLut) && op.is1To1
                    && info.stripeInput == info.stripe && op.canReuseIfm && op.ifm.shape == op.lastOfm.shape
                    && op.ifm.allocationBytes == op.lastOfm.allocationBytes then 0
                 else op.lastOfm.allocationBytes
  {
  }

  /**
   * When a longer cascade becomes the best. A spilled one takes in operators that would not fit with their
   * whole feature maps while its buffers do. Another one takes in what makes it smaller than the best before or
   * than the operator on its own.
   */
  lemma KeptInAttributes(c: Setting, s: nat, m: nat, peak: int)
    requires c.Valid() && c.Chain(s, m) && m >= 2
    ensures var last: nat, before := s + m - 1, Best(c, s, m - 1, peak);
            var alone := (if last in c.opLocal then c.opLocal[last] else 0)
                         + if last in c.nonLocal then c.nonLocal[last] else 0;
            var kept := if c.Spills(s) then WholeInStaging(c, last) >= peak && c.BuffersSize(s, m) <= peak
                        else c.CascadeSize(s, m) < before.size || c.CascadeSize(s, m) < alone;
            Best(c, s, m, peak) == if kept then Choice(m, c.CascadeSize(s, m)) else before
  {
  }

  /**
   * When the search ends: a spilled one with an operator that fits, or when its buffers no longer do; another
   * one when both the operator and the best cascade fit, or only the last output could still make it smaller.
   */
  lemma EndsInAttributes(c: Setting, s: nat, m: nat, peak: int)
    requires c.Valid() && c.Chain(s, m) && m >= 2
    ensures var last: nat, best := s + m - 1, Best(c, s, m, peak).size;
            var alone := (if last in c.opLocal then c.opLocal[last] else 0)
                         + if last in c.nonLocal then c.nonLocal[last] else 0;
            var ofm := c.ops[last].lastOfm;
            Ends(c, s, m, peak)
            <==> if c.Spills(s) then WholeInStaging(c, last) < peak || c.BuffersSize(s, m) > peak
                 else (alone < peak && best < peak)
                      || c.CascadeSize(s, m) - (if ofm.inStaging then ofm.allocationBytes else 0) > best
  {
  }

  /** The search starts with the first operator on its own. */
  lemma SearchStarts(c: Setting, s: nat, peak: int)
    requires c.Valid() && c.Chain(s, 1)
    ensures Best(c, s, 1, peak)
            == Choice(1, (if s in c.opLocal then c.opLocal[s] else 0) + if s in c.nonLocal then c.nonLocal[s] else 0)
  {
  }

  /**
   * A step of the walk. Operators of other kinds and those with a cost are passed over. One that cannot be in
   * a cascade, or is best on its own, gets its fallback cost, and unless spilled the peak covers it; otherwise
   * the best cascade is recorded, and unless spilled the peak covers that.
   */
  lemma StepInAttributes(c: Setting, st: State, st': State)
    requires Visited(c, st, st') && Built(c, st.costs, st.cascades, st.peak)
    ensures st.pos < |c.ops|
    ensures !c.ops[st.pos].isNpu || st.pos in st.costs ==>
              st'.pos == st.pos + 1 && st'.costs == st.costs && st'.cascades == st.cascades && st'.peak == st.peak
    ensures c.ops[st.pos].isNpu && st.pos !in st.costs ==>
              st.pos in c.ref && st.pos in c.fallback && st.pos in st'.costs
    ensures c.ops[st.pos].isNpu && st.pos !in st.costs && !c.IsCascadable(st.pos) ==> st'.pos == st.pos + 1
    ensures c.ops[st.pos].isNpu && st.pos !in st.costs && st'.cascades == st.cascades ==>
              var alone := (if st.pos in c.opLocal then c.opLocal[st.pos] else 0)
                           + if st.pos in c.nonLocal then c.nonLocal[st.pos] else 0;
              && st'.costs == st.costs[st.pos := c.fallback[st.pos]]
              && st'.peak == if c.Spills(st.pos) || alone <= st.peak then st.peak else alone
    ensures c.ops[st.pos].isNpu && st.pos !in st.costs && st'.cascades != st.cascades ==>
              c.IsCascadable(st.pos)
              && exists e: nat :: e in st'.cascades && st'.cascades[e].start == st.pos
                                  && st'.cascades == st.cascades[e := st'.cascades[e]]
  {
    forall e: nat | e in st.cascades ensures st.cascades[e].start in st.costs {
      RecordedCosts(c, st.costs, st.peak, e, st.cascades[e]);
    }
  }

  /** The search reaches the first operator if that has no cost; ReachesNext and EndsInAttributes say how it goes on. */
  lemma ReachesFirst(c: Setting, costs: map<nat, OpInfo>, s: nat, peak: int)
    requires c.Valid()
    ensures Reaches(c, costs, s, 1, peak) <==> s < |c.ops| && s in c.ref && s !in costs
  {
  }

  /** What becomes of the operator at the cursor and the best cascade from it. */
  lemma Settles(c: Setting, st: State, st': State, best: Choice)
    requires st.pos < |c.ops| && st.pos in c.fallback && Settled(c, st, st', best)
    ensures best.n >= 1 && st'.pos == st.pos
    ensures var e: nat := st.pos + best.n - 1;
            if best.n == 1 then st'.cascades == st.cascades && st'.costs == st.costs[st.pos := c.fallback[st.pos]]
            else
              && e in st'.cascades && st'.cascades == st.cascades[e := st'.cascades[e]]
              && st'.cascades[e].start == st.pos && Recorded(c, st'.costs, st'.peak, e, st'.cascades[e])
              && (forall p: nat :: !(st.pos <= p <= e) ==>
                    (p in st'.costs <==> p in st.costs) && (p in st.costs ==> st'.costs[p] == st.costs[p]))
              && st'.peak == if c.Spills(st.pos) || best.size <= st.peak then st.peak else best.size
  {
  }

  /**
   * At an operator that can be in a cascade the search takes m operators in and settles on the best of them: that
   * cascade is recorded, up to its last operator, or the operator is left alone.
   */
  lemma StepIsBest(c: Setting, st: State, st': State) returns (m: nat, best: Choice)
    requires Visited(c, st, st') && c.ops[st.pos].isNpu && st.pos !in st.costs && c.IsCascadable(st.pos)
    ensures c.Valid() && st'.pos == st.pos
    ensures Reaches(c, st.costs, st.pos, m, st.peak) && !Reaches(c, st.costs, st.pos, m + 1, st.peak)
    ensures best == Best(c, st.pos, m, st.peak) && best.n >= 1
    ensures var e: nat := st.pos + best.n - 1;
            if best.n == 1 then st'.cascades == st.cascades && st'.costs == st.costs[st.pos := c.fallback[st.pos]]
            else
              && e in st'.cascades && st'.cascades == st.cascades[e := st'.cascades[e]]
              && st'.cascades[e].start == st.pos && Recorded(c, st'.costs, st'.peak, e, st'.cascades[e])
              && (forall p: nat :: !(st.pos <= p <= e) ==>
                    (p in st'.costs <==> p in st.costs) && (p in st.costs ==> st'.costs[p] == st.costs[p]))
              && st'.peak == if c.Spills(st.pos) || best.size <= st.peak then st.peak else best.size
  {
    var k: nat, choice: Choice :|
      Proposed(c, st.costs, st.pos, st.peak, k, choice) && Settled(c, st, st', choice);
    m, best := k, choice;
    Settles(c, st, st', best);
  }

  /** An operator in no cascade has its fallback cost, and what it uses fits the peak unless it is spilled. */
  lemma OwnInAttributes(c: Setting, costs: map<nat, OpInfo>, cascades: map<nat, CascadeInfo>, peak: int, p: nat)
    requires Built(c, costs, cascades, peak) && p in costs
    requires forall e: nat :: e in cascades ==> !(cascades[e].start <= p <= e)
    ensures p < |c.ops| && p in c.fallback && costs[p] == c.fallback[p]
    ensures !c.Spills(p) ==>
              (if p in c.opLocal then c.opLocal[p] else 0) + (if p in c.nonLocal then c.nonLocal[p] else 0) <= peak
  {
    assert OnItsOwn(c, costs, peak, p);
  }

  /** The size of a recorded cascade fits the peak, and unless spilled it is less than some member uses on its own. */
  lemma RecordedSize(c: Setting, costs: map<nat, OpInfo>, peak: int, e: nat, info: CascadeInfo) returns (p: nat)
    requires Recorded(c, costs, peak, e, info)
    ensures info.start < e < |c.ops| && info.memUsage <= peak
    ensures c.Spills(info.start) ==> info.memUsage == info.localMemUsage
    ensures !c.Spills(info.start) ==>
              info.start <= p <= e
              && info.memUsage
                 < (if p in c.opLocal then c.opLocal[p] else 0) + (if p in c.nonLocal then c.nonLocal[p] else 0)
  {
    assert Look(0);
    p := 0;
    if !c.Spills(info.start) {
      p :| info.start <= p < info.start + CountOf(info.start, e) && info.memUsage < c.EstimateUncascaded(p);
    }
  }

  // ---- the record

  /** The recorded buffer of an operator is a rolling one between the stripes of its producer and its own. */
  lemma RecordedBuffer(c: Setting, costs: map<nat, OpInfo>, peak: int, e: nat, info: CascadeInfo, p: nat)
    requires Recorded(c, costs, peak, e, info) && info.start < p <= e
    ensures e < |c.ops| && p in info.buffers && p in c.ref && p - 1 in c.ref
    ensures var ofm := c.ops[p - 1].ofm;
            var shape := c.arch.rollingBufferShape(c.ref[p - 1].stripe, c.ref[p].stripeInput, ofm.format);
            info.buffers[p] == Buffer(shape, c.arch.storageBytes(shape, ofm.format, ofm.dataType))
    ensures c.ops[p - 1].consumers == [p] && c.IsCascadable(p)
  {
    assert Look(0);
    assert c.Links(p - 1);
  }

  /**
   * Which outputs are recorded to alias their inputs: those of one-to-one operators with equal stripes that
   * the live ranges allow it and that have equal buffers on both sides, but of no table lookup when spilling
   * selectively.
   */
  lemma SharingInAttributes(c: Setting, costs: map<nat, OpInfo>, peak: int, e: nat, info: CascadeInfo, p: nat)
    requires Recorded(c, costs, peak, e, info) && info.start <= p < e
    ensures e < |c.ops| && p in costs && p in c.ref && p + 1 in info.buffers && (p > info.start ==> p in info.buffers)
    ensures var op, ref, incoming := c.ops[p], c.ref[p], if p > info.start then info.buffers[p] else Buffer(NoShape, 0);
            var shares := !(c.arch.selectiveSpilling && op.kind.isLut) && op.is1To1 && ref.stripeInput == ref.stripe
                          && op.canReuseIfm && incoming.shape == info.buffers[p + 1].shape
                          && incoming.sizeBytes == info.buffers[p + 1].sizeBytes;
            costs[p] == ref.(cascade := e, firstInCascade := p == info.start,
                             ofmEquivalenceId := if shares then op.ifm.equivalenceId else ref.ofmEquivalenceId)
  {
    RecordedCosts(c, costs, peak, e, info);
    RecordedParts(c, costs, peak, e, info);
    assert costs[p] == CostIn(c, info.start, e, p);
    SharedBuffers(c, info.buffers, info.start, CountOf(info.start, e), p + 1 - info.start,
                  if p > info.start then info.buffers[p] else Buffer(NoShape, 0));
  }

  lemma SharedBuffers(c: Setting, buffers: map<nat, Buffer>, s: nat, n: nat, k: nat, incoming: Buffer)
    requires 1 <= k < n && c.Chain(s, n) && CommittedBuffers(c, buffers, s, n)
    requires if k > 1 then s + k - 1 in buffers && incoming == buffers[s + k - 1] else incoming == Buffer(NoShape, 0)
    ensures s + k in buffers
    ensures c.Shared(s, k) == c.CanReuse(s + k - 1, c.ref[s + k - 1], incoming, buffers[s + k])
  {
  }

  /** The weight buffers of n operators from s on. */
  function Weights(c: Setting, s: nat, n: nat): (r: seq<nat>)
    requires forall p: nat :: s <= p < s + n ==> p in c.ref
    ensures |r| == n && forall k :: 0 <= k < n ==> r[k] == c.ref[s + k].weightBytes
  {
    if n == 0 then [] else Weights(c, s, n - 1) + [c.ref[s + n - 1].weightBytes]
  }

  /** What the buffers between them add to the footprint. */
  function Rolling(c: Setting, buffers: map<nat, Buffer>, s: nat, n: nat): (r: seq<nat>)
    requires n >= 1 && s + n <= |c.ops| && forall p: nat :: s <= p < s + n ==> p in c.ref
    requires forall p: nat :: s < p < s + n ==> p in buffers
    ensures |r| == n - 1
  {
    if n == 1 then []
    else Rolling(c, buffers, s, n - 1) + [if c.Shared(s, n - 1) then 0 else buffers[s + n - 1].sizeBytes]
  }

  lemma {:induction false} RollingAt(c: Setting, buffers: map<nat, Buffer>, s: nat, n: nat, k: nat)
    requires 1 <= k < n && s + n <= |c.ops| && forall p: nat :: s <= p < s + n ==> p in c.ref
    requires forall p: nat :: s < p < s + n ==> p in buffers
    ensures Rolling(c, buffers, s, n)[k - 1] == if c.Shared(s, k) then 0 else buffers[s + k].sizeBytes
  {
    if k < n - 1 {
      RollingAt(c, buffers, s, n - 1, k);
    }
  }

  lemma RollingIs(c: Setting, buffers: map<nat, Buffer>, s: nat, n: nat, j: nat, incoming: Buffer, next: Buffer)
    requires j + 1 < n && c.Chain(s, n) && CommittedBuffers(c, buffers, s, n)
    requires if j > 0 then s + j in buffers && incoming == buffers[s + j] else incoming == Buffer(NoShape, 0)
    requires s + j + 1 in buffers && next == buffers[s + j + 1]
    ensures var p: nat := s + j;
            var op, ref := c.ops[p], c.ref[p];
            var shares := !(c.arch.selectiveSpilling && op.kind.isLut) && op.is1To1 && ref.stripeInput == ref.stripe
                          && op.canReuseIfm && incoming.shape == next.shape && incoming.sizeBytes == next.sizeBytes;
            Rolling(c, buffers, s, n)[j] == if shares then 0 else next.sizeBytes
  {
    SharedBuffers(c, buffers, s, n, j + 1, incoming);
    RollingAt(c, buffers, s, n, j + 1);
    ReuseInAttributes(c, s + j, c.ref[s + j], incoming, next);
  }

  /** The buffer between p and p + 1 adds its size, unless the output of p aliases its input. */
  lemma RollingInAttributes(c: Setting, costs: map<nat, OpInfo>, peak: int, e: nat, info: CascadeInfo, n: nat, j: nat,
                            p: nat, incoming: Buffer, next: Buffer)
    requires Recorded(c, costs, peak, e, info) && n == e + 1 - info.start && j + 1 < n && p == info.start + j
    requires if j > 0 then p in info.buffers && incoming == info.buffers[p] else incoming == Buffer(NoShape, 0)
    requires p + 1 in info.buffers && next == info.buffers[p + 1]
    ensures e < |c.ops| && p in c.ref && (forall q: nat :: info.start <= q < info.start + n ==> q in c.ref)
            && forall q: nat :: info.start < q < info.start + n ==> q in info.buffers
    ensures var op, ref := c.ops[p], c.ref[p];
            var shares := !(c.arch.selectiveSpilling && op.kind.isLut) && op.is1To1 && ref.stripeInput == ref.stripe
                          && op.canReuseIfm && incoming.shape == next.shape && incoming.sizeBytes == next.sizeBytes;
            Rolling(c, info.buffers, info.start, n)[j] == if shares then 0 else next.sizeBytes
  {
    RecordedParts(c, costs, peak, e, info);
    RollingIs(c, info.buffers, info.start, n, j, incoming, next);
  }

  /** The footprint: weight buffers, recorded buffers but those left out, and the ends in staging unless spilled. */
  lemma FootprintInAttributes(c: Setting, costs: map<nat, OpInfo>, peak: int, e: nat, info: CascadeInfo, n: nat)
    requires Recorded(c, costs, peak, e, info) && n == e + 1 - info.start
    ensures info.start < e < |c.ops| && (forall p: nat :: info.start <= p < info.start + n ==> p in c.ref)
            && forall p: nat :: info.start < p < info.start + n ==> p in info.buffers
    ensures var first, last := c.ops[info.start], c.ops[e];
            info.localMemUsage
            == Sum(Weights(c, info.start, n)) + Sum(Rolling(c, info.buffers, info.start, n))
               + if c.spilling && (!c.arch.selectiveSpilling || (!first.ifm.inStaging && !first.ofm.inStaging)) then 0
                 else (if first.ifm.inStaging then first.ifm.allocationBytes else 0)
                      + if last.lastOfm.inStaging then last.lastOfm.allocationBytes else 0
  {
    FootprintIsRecorded(c, costs, peak, e, info);
    StartsBefore(c, costs, peak, e, info);
    WeightsAdd(c, info.start, n);
    RollingAdds(c, info.buffers, info.start, n);
  }

  lemma StartsBefore(c: Setting, costs: map<nat, OpInfo>, peak: int, e: nat, info: CascadeInfo)
    requires Recorded(c, costs, peak, e, info)
    ensures info.start < e
  {
    assert Look(0);
  }

  lemma {:induction false} WeightsAdd(c: Setting, s: nat, n: nat)
    requires forall p: nat :: s <= p < s + n ==> p in c.ref
    ensures WeightBytes(c, s, n) == Sum(Weights(c, s, n))
  {
    if n > 0 {
      WeightsAdd(c, s, n - 1);
      SumSnoc(Weights(c, s, n - 1), c.ref[s + n - 1].weightBytes);
    }
  }

  lemma {:induction false} RollingAdds(c: Setting, buffers: map<nat, Buffer>, s: nat, n: nat)
    requires n >= 1 && s + n <= |c.ops| && forall p: nat :: s <= p < s + n ==> p in c.ref
    requires forall p: nat :: s < p < s + n ==> p in buffers
    ensures UnsharedBytes(c, buffers, s, n) == Sum(Rolling(c, buffers, s, n))
  {
    if n > 1 {
      RollingAdds(c, buffers, s, n - 1);
      SumSnoc(Rolling(c, buffers, s, n - 1), if c.Shared(s, n - 1) then 0 else buffers[s + n - 1].sizeBytes);
    }
  }
}
