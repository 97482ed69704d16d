/** Building cascades: a greedy walk over the schedule. */
module CascadeBuilding {
  import opened CascadeModel
  import opened CascadeChoice
  import opened CascadeRecords

  /** Remembers the buffers between operators. */
  class BufferMap {
    const setting: Setting
    var cache: map<(Neighbour, Neighbour), Buffer>

    constructor (setting: Setting)
      ensures this.setting == setting && Valid()
    {
      this.setting := setting;
      cache := map[];
    }

    /** What is remembered is right. */
    ghost predicate Valid()
      reads this
    {
      forall key :: key in cache ==> Right(key)
    }

    ghost predicate Right(key: (Neighbour, Neighbour))
      requires key in cache
      reads this
    {
      setting.CanAsk(key.0, key.1) && cache[key] == setting.BufferFor(key.0, key.1)
    }

    method GetBuffer(producer: Neighbour, consumer: Neighbour) returns (buffer: Buffer)
      requires Valid() && setting.CanAsk(producer, consumer)
      modifies this
      ensures Valid() && buffer == setting.BufferFor(producer, consumer)
    {
      var key := (producer, consumer);
      if key in cache {
        assert Right(key);
        return cache[key];
      }
      if consumer.None? {
        var ofm := setting.ops[producer.index].ofm;
        buffer := Buffer(ofm.shape, ofm.allocationBytes);
      } else if producer.None? {
        var ifm := setting.ops[consumer.index].ifm;
        buffer := Buffer(ifm.shape, ifm.allocationBytes);
      } else {
        buffer := NewBuffer(producer.index, consumer.index);
      }
      cache := cache[key := buffer];
      forall other | other in cache ensures Right(other) {
        if other != key {
          assert old(Right(other));
        }
      }
    }

    /** The buffer between two operators: the feature map in full, or a rolling buffer. */
    method NewBuffer(producer: nat, consumer: nat) returns (buffer: Buffer)
      requires setting.CanAsk(Operator(producer), Operator(consumer))
      ensures buffer == setting.BufferBetween(producer, consumer)
    {
      var ofm, ifm := setting.ops[producer].ofm, setting.ops[consumer].ifm;
      var bufferShape, bufferSize;
      if ofm.requireFullTensor || ifm.requireFullTensor {
        bufferShape := MaxShape(ofm.shape, ifm.shape);
        bufferSize := if ofm.allocationBytes < ifm.allocationBytes then ifm.allocationBytes else ofm.allocationBytes;
      } else {
        bufferShape := setting.arch.rollingBufferShape(setting.ref[producer].stripe,
                                                       setting.ref[consumer].stripeInput, ofm.format);
        bufferSize := setting.arch.storageBytes(bufferShape, ofm.format, ofm.dataType);
      }
      buffer := Buffer(bufferShape, bufferSize);
    }
  }

  /** The operators s to s + n - 1. */
  function Run(s: nat, n: nat): (r: seq<nat>)
    ensures |r| == n && forall k :: 0 <= k < n ==> r[k] == s + k
  {
    seq(n, k requires 0 <= k < n => s + k)
  }

  /** How far a proposed cascade goes, and the best one so far. */
  datatype Proposal = Proposal(opsInCascade: seq<nat>, opsInBestCascade: seq<nat>, buffersSize: int, bestSize: int,
                               bestLocalSize: int,
                               activeMax: int, inactiveMax: int, previousBuffer: Buffer)

  /** What has been accumulated over m operators. */
  ghost predicate Accumulated(c: Setting, s: nat, p: Proposal, m: nat) {
    && c.Chain(s, m) && p.opsInCascade == Run(s, m)
    && p.buffersSize == c.BuffersSize(s, m)
    && p.activeMax == c.ActiveMax(s, m) && p.inactiveMax == c.InactiveMax(s, m)
    && p.previousBuffer == c.Incoming(s, m - 1)
  }

  /** The best cascade among the first m operators has been found; it has n of them. */
  ghost predicate Judged(c: Setting, peak: int, s: nat, p: Proposal, m: nat, n: nat) {
    && c.Valid() && c.Chain(s, m) && p.opsInBestCascade == Run(s, n)
    && Best(c, s, m, peak) == Choice(n, p.bestSize)
    && (n > 1 ==> p.bestLocalSize == c.LocalSize(s, n))
  }

  /** The state of the search after m operators. */
  ghost predicate Searched(c: Setting, costs: map<nat, OpInfo>, peak: int, s: nat, p: Proposal, m: nat, n: nat) {
    Accumulated(c, s, p, m) && Judged(c, peak, s, p, m, n) && Reaches(c, costs, s, m, peak)
  }

  /** The search goes on after m operators. */
  ghost predicate GoesOn(c: Setting, s: nat, m: nat, peak: int)
    requires c.Valid() && c.Chain(s, m)
  {
    m >= 2 ==> !Ends(c, s, m, peak)
  }

  lemma RunGrows(s: nat, n: nat)
    ensures Run(s, n) + [s + n] == Run(s, n + 1)
  {
  }

  class CascadeBuilder {
    const setting: Setting
    const buffers: BufferMap

    constructor (setting: Setting)
      ensures this.setting == setting && fresh(buffers) && buffers.setting == setting && buffers.Valid()
    {
      this.setting := setting;
      buffers := new BufferMap(setting);
    }

    ghost predicate Valid()
      reads this, buffers
    {
      setting.Valid() && buffers.setting == setting && buffers.Valid()
    }

    /** The next operator can join the cascade whose last operator is `producer`. */
    method CanJoin(costs: map<nat, OpInfo>, producer: nat) returns (join: bool)
      requires Valid() && producer < |setting.ops|
      ensures join <==> setting.Links(producer) && producer + 1 !in costs
    {
      var ops := setting.ops;
      var dependants := ops[producer].consumers;
      if |dependants| != 1 {
        return false;
      }
      var currentOp := dependants[0];
      assert setting.Bounded(dependants);
      var currentIfm, producerOfm := ops[currentOp].ifm, ops[producer].ofm;
      if currentOp in costs || currentOp !in setting.ref || !setting.IsCascadable(currentOp)
         || producerOfm.shape != currentIfm.shape || currentIfm.requireFullTensor || producerOfm.requireFullTensor
         || currentIfm.needsLinearFormat || producerOfm.needsLinearFormat {
        return false;
      }
      join := currentOp == producer + 1;
    }

    /** The buffer between an operator and the next. */
    method BufferBehind(producer: nat) returns (buffer: Buffer)
      requires Valid() && producer + 1 < |setting.ops| && producer in setting.ref && producer + 1 in setting.ref
      modifies buffers
      ensures Valid() && buffer == setting.BufferBetween(producer, producer + 1)
    {
      buffer := buffers.GetBuffer(Operator(producer), Operator(producer + 1));
    }

    /** Adds the next operator to the accumulated sizes. */
    method Accumulate(s: nat, p: Proposal, producer: nat, ghost m: nat) returns (p': Proposal)
      requires Valid() && setting.Chain(s, m + 1) && producer == s + m - 1 && Accumulated(setting, s, p, m)
      modifies buffers
      ensures Valid() && Accumulated(setting, s, p', m + 1)
      ensures p'.opsInBestCascade == p.opsInBestCascade && p'.bestSize == p.bestSize
              && p'.bestLocalSize == p.bestLocalSize
    {
      var currentOp := producer + 1;
      var refCost := setting.ref[currentOp];
      var bufferInfo := BufferBehind(producer);
      RunGrows(s, m);
      var opsInCascade := p.opsInCascade + [currentOp];
      var reusePreviousBuffer := setting.CanReuse(producer, setting.ref[producer], p.previousBuffer, bufferInfo);
      var buffersSize := p.buffersSize + refCost.weightBytes;
      if !reusePreviousBuffer {
        buffersSize := buffersSize + bufferInfo.sizeBytes;
      }
      var activeMax, inactiveMax := UpdateSegmentNonLocal(s, currentOp, p.activeMax, p.inactiveMax, m);
      p' := p.(opsInCascade := opsInCascade, buffersSize := buffersSize, activeMax := activeMax,
               inactiveMax := inactiveMax,
               previousBuffer := bufferInfo);
    }

    /** Takes account of the memory used beside an operator behind the start. */
    method UpdateSegmentNonLocal(s: nat, currentOp: nat, activeMax0: int, inactiveMax0: int, ghost m: nat)
      returns (activeMax: int, inactiveMax: int)
      requires setting.Chain(s, m + 1) && m >= 1 && currentOp == s + m
      requires activeMax0 == setting.ActiveMax(s, m) && inactiveMax0 == setting.InactiveMax(s, m)
      ensures activeMax == setting.ActiveMax(s, m + 1) && inactiveMax == setting.InactiveMax(s, m + 1)
    {
      activeMax, inactiveMax := activeMax0, inactiveMax0;
      var r := setting.StartRange(s);
      var startIfmRangeAlreadyLocal := false;
      if r.size > 0 && r.rangeId != INVALID_RANGE {
        startIfmRangeAlreadyLocal := setting.InStartRange(s, setting.ops[currentOp].ifm)
          || setting.InStartRange(s, setting.ops[currentOp].lastOfm);
      }
      var clampedNonLocal := Max(0, setting.NonLocalUsage(currentOp));
      if r.size > 0 && setting.ref[currentOp].timeIndex >= r.startTime
         && setting.ref[currentOp].timeIndex <= r.endTime {
        var adjustedNonLocal := if startIfmRangeAlreadyLocal then clampedNonLocal else Max(0, clampedNonLocal - r.size);
        activeMax := Max(activeMax, adjustedNonLocal);
      } else {
        inactiveMax := Max(inactiveMax, clampedNonLocal);
      }
    }

    /** Keeps a spilled cascade that fits, until an operator fits in its entirety. */
    method JudgeSpilled(s: nat, p: Proposal, peak: int, ghost m: nat, ghost n: nat)
      returns (p': Proposal, more: bool, ghost n': nat)
      requires Valid() && m >= 2 && Accumulated(setting, s, p, m) && Judged(setting, peak, s, p, m - 1, n)
               && setting.Spills(s)
      ensures Accumulated(setting, s, p', m) && Judged(setting, peak, s, p', m, n')
              && more == GoesOn(setting, s, m, peak)
    {
      var currentOp := s + |p.opsInCascade| - 1;
      var op := setting.ops[currentOp];
      var opFullIfmSize, opFullOfmSize := op.ifm.allocationBytes, op.lastOfm.allocationBytes;
      var fullIfmBuffer, fullOfmBuffer := Buffer(op.ifm.shape, opFullIfmSize), Buffer(op.lastOfm.shape, opFullOfmSize);
      var uncascadedStagingUsage :=
        if setting.CanReuse(currentOp, setting.fallback[currentOp], fullIfmBuffer, fullOfmBuffer)
        then opFullIfmSize + setting.NonLocalUsage(currentOp)
        else opFullIfmSize + opFullOfmSize + setting.NonLocalUsage(currentOp);
      var uncascadedFits := uncascadedStagingUsage < peak;
      var buffersExceedPeak := p.buffersSize > peak;
      if uncascadedFits || buffersExceedPeak {
        p', more, n' := p, false, n;
      } else {
        p' := p.(opsInBestCascade := p.opsInCascade, bestSize := p.buffersSize, bestLocalSize := p.buffersSize);
        more, n' := true, m;
      }
    }

    /** Keeps a cascade that uses less memory than the best so far or than the operator on its own. */
    method JudgeLocal(s: nat, p: Proposal, peak: int, ghost m: nat, ghost n: nat)
      returns (p': Proposal, more: bool, ghost n': nat)
      requires Valid() && m >= 2 && Accumulated(setting, s, p, m) && Judged(setting, peak, s, p, m - 1, n)
               && !setting.Spills(s)
      ensures Accumulated(setting, s, p', m) && Judged(setting, peak, s, p', m, n')
              && more == GoesOn(setting, s, m, peak)
    {
      var currentOp := s + |p.opsInCascade| - 1;
      var op := setting.ops[currentOp];
      var uncascadedStagingUsage := setting.EstimateUncascaded(currentOp);
      var ifmStoredSize, ofmStoredSize := setting.Stored(setting.ops[s].ifm), setting.Stored(op.lastOfm);
      var segmentNonLocalMax := Max(p.inactiveMax, Max(Max(0, setting.NonLocalUsage(s)), p.activeMax));
      var cascadeLocalSize := ifmStoredSize + p.buffersSize + ofmStoredSize;
      var cascadeSize := cascadeLocalSize + segmentNonLocalMax;
      assert currentOp == s + m - 1 && cascadeLocalSize == setting.LocalSize(s, m)
             && cascadeSize == setting.CascadeSize(s, m);
      p', n' := p, n;
      if cascadeSize < p.bestSize || cascadeSize < uncascadedStagingUsage {
        p' := p.(bestSize := cascadeSize, bestLocalSize := cascadeLocalSize, opsInBestCascade := p.opsInCascade);
        n' := m;
      }
      var cascadePrefix := ifmStoredSize + segmentNonLocalMax + p.buffersSize;
      more := !((uncascadedStagingUsage < peak && p'.bestSize < peak) || cascadePrefix > p'.bestSize);
    }

    method Judge(s: nat, p: Proposal, peak: int, ghost m: nat, ghost n: nat)
      returns (p': Proposal, more: bool, ghost n': nat)
      requires Valid() && m >= 2 && Accumulated(setting, s, p, m) && Judged(setting, peak, s, p, m - 1, n)
      ensures Accumulated(setting, s, p', m) && Judged(setting, peak, s, p', m, n')
              && more == GoesOn(setting, s, m, peak)
    {
      if setting.Spills(s) {
        p', more, n' := JudgeSpilled(s, p, peak, m, n);
      } else {
        p', more, n' := JudgeLocal(s, p, peak, m, n);
      }
    }

    /** The proposal of one operator. */
    method Start(s: nat, ghost costs: map<nat, OpInfo>, ghost peak: int) returns (p: Proposal)
      requires Valid() && s < |setting.ops| && s in setting.ref && s !in costs
      ensures Searched(setting, costs, peak, s, p, 1, 1)
    {
      var used := Max(0, setting.NonLocalUsage(s));
      var r := setting.StartRange(s);
      var inRange := r.size > 0 && setting.ref[s].timeIndex >= r.startTime && setting.ref[s].timeIndex <= r.endTime;
      var inactiveMax := if inRange then 0 else used;
      p := Proposal([s], [s], setting.ref[s].weightBytes, setting.EstimateUncascaded(s), 0, 0, inactiveMax, NO_BUFFER);
      assert Run(s, 1) == [s];
    }

    /** Tries the next operator. */
    method TryNext(costs: map<nat, OpInfo>, s: nat, peak: int, p: Proposal, producer: nat, ghost m: nat, ghost n: nat)
      returns (p': Proposal, more: bool, ghost m': nat, ghost n': nat)
      requires Valid() && Searched(setting, costs, peak, s, p, m, n) && producer == s + m - 1
               && GoesOn(setting, s, m, peak)
      modifies buffers
      ensures Valid() && Searched(setting, costs, peak, s, p', m', n')
      ensures if more then m' == m + 1 && GoesOn(setting, s, m', peak) else !Reaches(setting, costs, s, m' + 1, peak)
    {
      var join := CanJoin(costs, producer);
      ReachesNext(setting, costs, s, m, peak);
      if !join {
        return p, false, m, n;
      }
      m' := m + 1;
      p', more, n' := JoinNext(s, p, peak, producer, m, n);
      ReachesNext(setting, costs, s, m', peak);
    }

    /** Takes in the next operator, which can join. */
    method JoinNext(s: nat, p: Proposal, peak: int, producer: nat, ghost m: nat, ghost n: nat)
      returns (p': Proposal, more: bool, ghost n': nat)
      requires Valid() && setting.Chain(s, m + 1) && producer == s + m - 1
      requires Accumulated(setting, s, p, m) && Judged(setting, peak, s, p, m, n)
      modifies buffers
      ensures Valid() && Accumulated(setting, s, p', m + 1) && Judged(setting, peak, s, p', m + 1, n')
      ensures more == GoesOn(setting, s, m + 1, peak)
    {
      p' := Accumulate(s, p, producer, m);
      p', more, n' := Judge(s, p', peak, m + 1, n);
    }

    /** Proposes a cascade that starts with an operator, and returns the best one. */
    method Propose(costs: map<nat, OpInfo>, s: nat, peak: int)
      returns (best: seq<nat>, size: int, localSize: int, ghost m: nat, ghost n: nat)
      requires Valid() && s < |setting.ops| && s in setting.ref && s !in costs
      modifies buffers
      ensures Valid() && best == Run(s, n) && Proposed(setting, costs, s, peak, m, Choice(n, size))
      ensures n > 1 ==> localSize == setting.LocalSize(s, n)
    {
      var p := Start(s, costs, peak);
      m, n := 1, 1;
      var producer := s;
      var more := true;
      while more
        invariant Valid() && Searched(setting, costs, peak, s, p, m, n)
        invariant if more then producer == s + m - 1 && GoesOn(setting, s, m, peak)
                  else !Reaches(setting, costs, s, m + 1, peak)
        decreases more, |setting.ops| - m
      {
        p, more, m, n := TryNext(costs, s, peak, p, producer, m, n);
        producer := producer + 1;
      }
      best, size, localSize := p.opsInBestCascade, p.bestSize, p.bestLocalSize;
    }

    /** Records that the operator before the k-th one shares its buffer, if it does. */
    method ShareBuffer(costs: map<nat, OpInfo>, prevIncomingBuffer: Buffer, buffer: Buffer, prevOp: nat)
      returns (costs': map<nat, OpInfo>)
      requires prevOp in costs && prevOp < |setting.ops|
      ensures costs' == if setting.CanReuse(prevOp, costs[prevOp], prevIncomingBuffer, buffer)
                        then costs[prevOp := costs[prevOp].(ofmEquivalenceId := setting.ops[prevOp].ifm.equivalenceId)]
                        else costs
    {
      costs' := costs;
      if setting.CanReuse(prevOp, costs[prevOp], prevIncomingBuffer, buffer) {
        costs' := costs[prevOp := costs[prevOp].(ofmEquivalenceId := setting.ops[prevOp].ifm.equivalenceId)];
      }
    }

    /** Records the k-th operator of a cascade, and the buffer that comes into it. */
    method CommitNext(costs: map<nat, OpInfo>, buffersInCascade: map<nat, Buffer>, prevIncomingBuffer: Buffer,
                      s: nat, cascadeEnd: nat, k: nat, ghost costs0: map<nat, OpInfo>)
      returns (costs': map<nat, OpInfo>, buffersInCascade': map<nat, Buffer>, incomingBuffer: Buffer)
      requires Valid() && s + k <= cascadeEnd && setting.Chain(s, CountOf(s, cascadeEnd))
      requires Committing(setting, costs0, costs, buffersInCascade, s, cascadeEnd, k)
      requires k > 0 ==> prevIncomingBuffer == setting.Incoming(s, k - 1)
      modifies buffers
      ensures Valid() && Committing(setting, costs0, costs', buffersInCascade', s, cascadeEnd, k + 1)
      ensures incomingBuffer == setting.Incoming(s, k)
    {
      var cascadedOp := s + k;
      costs' := costs[cascadedOp := setting.ref[cascadedOp].(cascade := cascadeEnd, firstInCascade := cascadedOp == s)];
      buffersInCascade', incomingBuffer := buffersInCascade, NO_BUFFER;
      if k > 0 {
        var prevOp: nat := cascadedOp - 1;
        incomingBuffer := BufferBehind(prevOp);
        buffersInCascade' := buffersInCascade[cascadedOp := incomingBuffer];
        assert CommittedCost(setting, costs, s, cascadeEnd, k, prevOp);
        costs' := ShareBuffer(costs', prevIncomingBuffer, incomingBuffer, prevOp);
      }
      CommitGrows(setting, costs0, costs, buffersInCascade, s, cascadeEnd, k, costs', buffersInCascade');
    }

    /** Records the costs of a cascade and the buffers between its operators. */
    method Commit(costs0: map<nat, OpInfo>, best: seq<nat>, s: nat)
      returns (costs: map<nat, OpInfo>, buffersInCascade: map<nat, Buffer>)
      requires Valid() && |best| > 1 && best == Run(s, |best|) && setting.Chain(s, |best|) && Free(costs0, s, |best|)
      modifies buffers
      ensures Valid() && Committing(setting, costs0, costs, buffersInCascade, s, s + |best| - 1, |best|)
    {
      var cascadeEnd: nat := s + |best| - 1;
      costs, buffersInCascade := costs0, map[];
      var prevIncomingBuffer := NO_BUFFER;
      var k := 0;
      while k < |best|
        invariant 0 <= k <= |best| && Valid()
        invariant Committing(setting, costs0, costs, buffersInCascade, s, cascadeEnd, k)
        invariant k > 0 ==> prevIncomingBuffer == setting.Incoming(s, k - 1)
      {
        costs, buffersInCascade, prevIncomingBuffer := CommitNext(costs, buffersInCascade, prevIncomingBuffer, s,
                                                                  cascadeEnd, k, costs0);
        k := k + 1;
      }
    }

    /** Records the best cascade that starts with s, or s on its own. */
    method Settle(costs: map<nat, OpInfo>, cascades: map<nat, CascadeInfo>, peak: int, s: nat, best: seq<nat>,
                  size: int, localSize: int,
                  ghost m: nat)
      returns (costs': map<nat, OpInfo>, cascades': map<nat, CascadeInfo>, peak': int)
      requires Valid() && Built(setting, costs, cascades, peak) && s < |setting.ops| && s in setting.fallback
               && s !in costs
      requires best == Run(s, |best|) && Proposed(setting, costs, s, peak, m, Choice(|best|, size))
      requires |best| > 1 ==> localSize == setting.LocalSize(s, |best|)
      modifies buffers
      ensures Valid() && Built(setting, costs', cascades', peak')
      ensures Settled(setting, State(costs, cascades, peak, s), State(costs', cascades', peak', s),
                      Choice(|best|, size))
    {
      BestIsChosen(setting, s, m, peak);
      if |best| > 1 {
        costs', cascades', peak' := SettleCascade(costs, cascades, peak, s, best, size, localSize);
      } else {
        peak' := if setting.Spills(s) then peak else Max(setting.EstimateUncascaded(s), peak);
        BuiltAlone(setting, costs, cascades, peak, s, peak');
        costs', cascades' := costs[s := setting.fallback[s]], cascades;
      }
    }

    method SettleCascade(costs: map<nat, OpInfo>, cascades: map<nat, CascadeInfo>, peak: int, s: nat, best: seq<nat>,
                         size: int, localSize: int)
      returns (costs': map<nat, OpInfo>, cascades': map<nat, CascadeInfo>, peak': int)
      requires Valid() && Built(setting, costs, cascades, peak) && s < |setting.ops| && Free(costs, s, |best|)
      requires |best| > 1 && best == Run(s, |best|) && Chosen(setting, s, peak, Choice(|best|, size))
      requires localSize == setting.LocalSize(s, |best|)
      modifies buffers
      ensures Valid() && Built(setting, costs', cascades', peak')
      ensures Joined(setting, State(costs, cascades, peak, s), State(costs', cascades', peak', s), Choice(|best|, size))
    {
      var cascadeEnd: nat := s + |best| - 1;
      var buffersInCascade;
      costs', buffersInCascade := Commit(costs, best, s);
      peak' := if setting.Spills(s) then peak else Max(size, peak);
      var info := CascadeInfo(s, cascadeEnd, size, localSize, buffersInCascade);
      cascades' := cascades[cascadeEnd := info];
      JoinsCascade(setting, State(costs, cascades, peak, s), State(costs', cascades', peak', s), Choice(|best|, size),
                   info);
    }

    /** Takes the operator at the cursor; the cursor stays where it is when a cascade was tried. */
    method Visit(costs: map<nat, OpInfo>, cascades: map<nat, CascadeInfo>, peak: int, pos: nat)
      returns (costs': map<nat, OpInfo>, cascades': map<nat, CascadeInfo>, peak': int, pos': nat)
      requires Valid() && Built(setting, costs, cascades, peak) && pos < |setting.ops|
      requires setting.ops[pos].isNpu ==> pos in setting.ref && pos in setting.fallback
      modifies buffers
      ensures Valid() && Built(setting, costs', cascades', peak')
      ensures Visited(setting, State(costs, cascades, peak, pos), State(costs', cascades', peak', pos'))
    {
      costs', cascades', peak', pos' := costs, cascades, peak, pos;
      if !setting.ops[pos].isNpu || pos in costs {
        pos' := pos + 1;
      } else if !setting.IsCascadable(pos) {
        peak' := if setting.Spills(pos) then peak else Max(setting.EstimateUncascaded(pos), peak);
        BuiltAlone(setting, costs, cascades, peak, pos, peak');
        costs' := costs[pos := setting.fallback[pos]];
        pos' := pos + 1;
      } else {
        ghost var m, n;
        var best, size, localSize;
        best, size, localSize, m, n := Propose(costs, pos, peak);
        costs', cascades', peak' := Settle(costs, cascades, peak, pos, best, size, localSize, m);
      }
    }

    /**
     * Builds the cascades of the operators from lo to hi, step by step. Every NPU operator gets a cost; every
     * operator that gets one is in a recorded cascade or on its own; no cascade uses more memory than the peak.
     */
    method BuildCascades(lo: nat, hi: nat, guidingStagingLimit: int)
      returns (costs: map<nat, OpInfo>, cascades: map<nat, CascadeInfo>, peak: int, ghost walk: seq<State>)
      requires Valid() && lo <= hi <= |setting.ops|
      requires forall p: nat :: lo <= p < hi && setting.ops[p].isNpu ==> p in setting.ref && p in setting.fallback
      modifies buffers
      ensures Valid() && Built(setting, costs, cascades, peak)
      ensures Walk(setting, walk, lo, hi, guidingStagingLimit) && walk[|walk| - 1] == State(costs, cascades, peak, hi)
      ensures forall p: nat :: lo <= p < hi && setting.ops[p].isNpu ==> p in costs
      ensures peak >= if guidingStagingLimit < 0x4000_0000 then guidingStagingLimit else 0x4000_0000
      ensures (forall p: nat :: lo <= p < hi ==> setting.Spills(p)) ==> peak == StagingLimit(guidingStagingLimit)
    {
      costs, cascades := map[], map[];
      peak := if guidingStagingLimit < 0x4000_0000 then guidingStagingLimit else 0x4000_0000;
      var pos := lo;
      walk := [State(costs, cascades, peak, pos)];
      while pos < hi
        invariant lo <= pos <= hi && Valid() && Built(setting, costs, cascades, peak)
        invariant Walking(setting, walk, lo, hi, guidingStagingLimit)
                  && walk[|walk| - 1] == State(costs, cascades, peak, pos)
        invariant forall p: nat :: lo <= p < pos && setting.ops[p].isNpu ==> p in costs
        invariant peak >= StagingLimit(guidingStagingLimit)
        invariant (forall p: nat :: lo <= p < hi ==> setting.Spills(p)) ==> peak == StagingLimit(guidingStagingLimit)
        decreases hi - pos, pos !in costs
      {
        ghost var before := State(costs, cascades, peak, pos);
        costs, cascades, peak, pos := Visit(costs, cascades, peak, pos);
        VisitMoves(setting, before, State(costs, cascades, peak, pos));
        WalkGrows(setting, walk, lo, hi, guidingStagingLimit, State(costs, cascades, peak, pos));
        walk := walk + [State(costs, cascades, peak, pos)];
      }
    }
  }
}
