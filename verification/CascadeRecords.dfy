/** What is recorded of the cascades, and the walk over the schedule that records them. */
module CascadeRecords {
  import opened CascadeModel
  import opened CascadeChoice
  import opened Folding

  /** The number of operators of a cascade from s to e. */
  function CountOf(s: nat, e: nat): (n: nat)
    requires s <= e
    ensures s + n == e + 1
  {
    e - s + 1
  }

  /** The cost recorded for operator p of a cascade; an operator whose buffer is shared has the output of its input. */
  function CostIn(c: Setting, s: nat, end: nat, p: nat): OpInfo
    requires s <= p <= end < |c.ops| && c.Chain(s, CountOf(s, end))
  {
    c.ref[p].(cascade := end, firstInCascade := p == s,
              ofmEquivalenceId := if p < end && c.Shared(s, p + 1 - s) then c.ops[p].ifm.equivalenceId
                else c.ref[p].ofmEquivalenceId)
  }

  /**
   * What is recorded of operator p when the first k operators of a cascade are; the last one may still
   * share its buffer.
   */
  ghost predicate CommittedCost(c: Setting, costs: map<nat, OpInfo>, s: nat, end: nat, k: nat, p: nat)
    requires s <= p < s + k <= end + 1 && c.Chain(s, CountOf(s, end))
  {
    && p in costs
    && if p < s + k - 1 then costs[p] == CostIn(c, s, end, p)
       else costs[p] == c.ref[p].(cascade := end, firstInCascade := p == s)
  }

  /** The first k operators of a cascade and the buffers between them have been recorded, and nothing else. */
  ghost predicate Committing(c: Setting, costs0: map<nat, OpInfo>, costs: map<nat, OpInfo>, buffers: map<nat, Buffer>,
                             s: nat, end: nat, k: nat) {
    && s <= end && s + k <= end + 1 && c.Chain(s, CountOf(s, end))
    && (forall p: nat :: s <= p < s + k ==> CommittedCost(c, costs, s, end, k, p))
    && (forall p: nat :: !(s <= p < s + k) ==> (p in costs <==> p in costs0) && (p in costs ==> costs[p] == costs0[p]))
    && CommittedBuffers(c, buffers, s, k)
  }

  /** The buffers into the operators behind the first have been recorded, and no others. */
  ghost predicate CommittedBuffers(c: Setting, buffers: map<nat, Buffer>, s: nat, k: nat)
    requires s + k <= |c.ops| && forall p: nat :: s <= p < s + k ==> p in c.ref
  {
    && (forall p: nat :: p in buffers <==> s < p < s + k)
    && (forall p: nat :: s < p < s + k ==> buffers[p] == c.Incoming(s, p - s))
  }

  lemma BuffersGrow(c: Setting, buffers: map<nat, Buffer>, s: nat, k: nat)
    requires s + k < |c.ops| && forall p: nat :: s <= p <= s + k ==> p in c.ref
    requires CommittedBuffers(c, buffers, s, k)
    ensures CommittedBuffers(c, if k > 0 then buffers[s + k := c.Incoming(s, k)] else buffers, s, k + 1)
  {
  }

  lemma CommitGrows(c: Setting, costs0: map<nat, OpInfo>, costs: map<nat, OpInfo>, buffers: map<nat, Buffer>, s: nat,
                    end: nat, k: nat,
                    costs': map<nat, OpInfo>, buffers': map<nat, Buffer>)
    requires Committing(c, costs0, costs, buffers, s, end, k) && s + k <= end
    requires var last := costs[s + k := c.ref[s + k].(cascade := end, firstInCascade := s + k == s)];
             costs' == if k > 0 && c.Shared(s, k)
                       then last[s + k - 1 := c.ref[s + k - 1].(cascade := end, firstInCascade := s + k - 1 == s,
                                                                ofmEquivalenceId := c.ops[s + k - 1].ifm.equivalenceId)]
                       else last
    requires buffers' == if k > 0 then buffers[s + k := c.Incoming(s, k)] else buffers
    ensures Committing(c, costs0, costs', buffers', s, end, k + 1)
  {
    var committed := k + 1;
    BuffersGrow(c, buffers, s, k);
    forall p: nat | s <= p < s + committed ensures CommittedCost(c, costs', s, end, committed, p) {
      CommittedAfter(c, costs, s, end, k, costs', p);
    }
  }

  lemma CommittedAfter(c: Setting, costs: map<nat, OpInfo>, s: nat, end: nat, k: nat, costs': map<nat, OpInfo>, p: nat)
    requires s + k <= end < |c.ops| && c.Chain(s, CountOf(s, end)) && s <= p < s + k + 1
    requires p < s + k ==> CommittedCost(c, costs, s, end, k, p)
    requires var last := costs[s + k := c.ref[s + k].(cascade := end, firstInCascade := s + k == s)];
             costs' == if k > 0 && c.Shared(s, k)
                       then last[s + k - 1 := c.ref[s + k - 1].(cascade := end, firstInCascade := s + k - 1 == s,
                                                                ofmEquivalenceId := c.ops[s + k - 1].ifm.equivalenceId)]
                       else last
    ensures CommittedCost(c, costs', s, end, k + 1, p)
  {
    if p == s + k - 1 {
      assert p + 1 - s == k;
    }
  }

  /** The sizes of a cascade of n operators, and the buffers between them. */
  ghost predicate Sized(c: Setting, info: CascadeInfo, s: nat, n: nat)
    requires c.Chain(s, n)
  {
    && info.memUsage == c.CascadeSize(s, n) && info.localMemUsage == c.LocalSize(s, n)
    && CommittedBuffers(c, info.buffers, s, n)
  }

  /** What is recorded of a cascade. */
  ghost predicate Record(c: Setting, costs: map<nat, OpInfo>, peak: int, end: nat, info: CascadeInfo) {
    && info.end == end && info.start < end && c.Chain(info.start, CountOf(info.start, end))
    && (forall p: nat :: info.start <= p <= end ==> p in costs && costs[p] == CostIn(c, info.start, end, p))
    && Sized(c, info, info.start, CountOf(info.start, end)) && info.memUsage <= peak
    && (!c.Spills(info.start) ==> CheaperThanOne(c, info.start, CountOf(info.start, end), info.memUsage))
  }

  /** A recorded cascade. */
  ghost predicate Recorded(c: Setting, costs: map<nat, OpInfo>, peak: int, end: nat, info: CascadeInfo) {
    forall n: int :: Look(n) ==> Record(c, costs, peak, end, info)
  }

  ghost predicate InCascade(cascades: map<nat, CascadeInfo>, p: nat) {
    exists e: nat :: e in cascades && cascades[e].start <= p <= e
  }

  /** An operator on its own has its fallback cost. */
  ghost predicate OnItsOwn(c: Setting, costs: map<nat, OpInfo>, peak: int, p: nat) {
    && p < |c.ops| && p in costs && p in c.fallback && costs[p] == c.fallback[p]
    && (!c.Spills(p) ==> c.EstimateUncascaded(p) <= peak)
  }

  /** The invariant of the walk. */
  ghost predicate Built(c: Setting, costs: map<nat, OpInfo>, cascades: map<nat, CascadeInfo>, peak: int) {
    && (forall e: nat :: e in cascades ==> Recorded(c, costs, peak, e, cascades[e]))
    && (forall p: nat :: p in costs ==> InCascade(cascades, p) || OnItsOwn(c, costs, peak, p))
  }

  lemma BuiltAlone(c: Setting, costs: map<nat, OpInfo>, cascades: map<nat, CascadeInfo>, peak: int, p: nat, peak': int)
    requires Built(c, costs, cascades, peak) && p !in costs && p < |c.ops| && p in c.fallback && peak' >= peak
    requires !c.Spills(p) ==> c.EstimateUncascaded(p) <= peak'
    ensures Built(c, costs[p := c.fallback[p]], cascades, peak')
  {
    OthersStay(c, costs, cascades, peak, costs[p := c.fallback[p]], peak');
  }

  /** What was recorded has not changed. */
  ghost predicate Extends(costs: map<nat, OpInfo>, costs': map<nat, OpInfo>) {
    forall p: nat :: p in costs ==> p in costs' && costs'[p] == costs[p]
  }

  lemma RecordStays(c: Setting, costs: map<nat, OpInfo>, peak: int, costs': map<nat, OpInfo>, peak': int, e: nat,
                    info: CascadeInfo)
    requires Record(c, costs, peak, e, info) && Extends(costs, costs') && peak <= peak'
    ensures e in costs && Record(c, costs', peak', e, info)
  {
  }

  lemma RecordedStays(c: Setting, costs: map<nat, OpInfo>, peak: int, costs': map<nat, OpInfo>, peak': int, e: nat,
                      info: CascadeInfo)
    requires Recorded(c, costs, peak, e, info) && Extends(costs, costs') && peak <= peak'
    ensures e in costs && Recorded(c, costs', peak', e, info)
  {
    assert Look(0);
    RecordStays(c, costs, peak, costs', peak', e, info);
  }

  lemma CommitExtends(c: Setting, costs0: map<nat, OpInfo>, costs: map<nat, OpInfo>, buffers: map<nat, Buffer>,
                      s: nat, end: nat, k: nat)
    requires Committing(c, costs0, costs, buffers, s, end, k) && Free(costs0, s, k)
    ensures Extends(costs0, costs)
    ensures forall q: nat :: q in costs && !(s <= q < s + k) ==> q in costs0
  {
  }

  lemma OthersStay(c: Setting, costs: map<nat, OpInfo>, cascades: map<nat, CascadeInfo>, peak: int,
                   costs': map<nat, OpInfo>, peak': int)
    requires Built(c, costs, cascades, peak) && peak' >= peak && Extends(costs, costs')
    ensures forall e: nat :: e in cascades ==> e in costs && Recorded(c, costs', peak', e, cascades[e])
    ensures forall q: nat :: q in costs ==> InCascade(cascades, q) || OnItsOwn(c, costs', peak', q)
  {
    forall e: nat | e in cascades ensures e in costs && Recorded(c, costs', peak', e, cascades[e]) {
      RecordedStays(c, costs, peak, costs', peak', e, cascades[e]);
    }
    forall q: nat | q in costs ensures InCascade(cascades, q) || OnItsOwn(c, costs', peak', q) {
      if !InCascade(cascades, q) {
        assert OnItsOwn(c, costs, peak, q);
      }
    }
  }

  lemma NewRecord(c: Setting, costs: map<nat, OpInfo>, peak: int, costs': map<nat, OpInfo>, info: CascadeInfo,
                  peak': int, n: nat)
    requires info.start < info.end && info.memUsage <= peak' && n == CountOf(info.start, info.end)
    requires Committing(c, costs, costs', info.buffers, info.start, info.end, n)
    requires Chosen(c, info.start, peak, Choice(n, info.memUsage)) && info.localMemUsage == c.LocalSize(info.start, n)
    ensures Record(c, costs', peak', info.end, info) && info.start in costs'
  {
    LastCommitted(c, costs, costs', info);
  }

  lemma NewlyRecorded(c: Setting, costs: map<nat, OpInfo>, peak: int, costs': map<nat, OpInfo>, info: CascadeInfo,
                      peak': int)
    requires info.start < info.end && info.memUsage <= peak'
    requires Committing(c, costs, costs', info.buffers, info.start, info.end, CountOf(info.start, info.end))
    requires Chosen(c, info.start, peak, Choice(CountOf(info.start, info.end), info.memUsage))
    requires info.localMemUsage == c.LocalSize(info.start, CountOf(info.start, info.end))
    ensures Recorded(c, costs', peak', info.end, info) && info.start in costs'
  {
    NewRecord(c, costs, peak, costs', info, peak', CountOf(info.start, info.end));
  }

  lemma StillInCascade(cascades: map<nat, CascadeInfo>, e: nat, info: CascadeInfo, q: nat)
    requires e !in cascades && (InCascade(cascades, q) || info.start <= q <= e)
    ensures InCascade(cascades[e := info], q)
  {
    var cascades' := cascades[e := info];
    if InCascade(cascades, q) {
      var e0: nat :| e0 in cascades && cascades[e0].start <= q <= e0;
      assert e0 in cascades' && cascades'[e0].start <= q <= e0;
    } else {
      assert e in cascades' && cascades'[e].start <= q <= e;
    }
  }

  lemma BuiltCascade(c: Setting, costs: map<nat, OpInfo>, cascades: map<nat, CascadeInfo>, peak: int,
                     costs': map<nat, OpInfo>, info: CascadeInfo, peak': int)
    requires Built(c, costs, cascades, peak) && peak' >= peak && Extends(costs, costs')
    requires Recorded(c, costs', peak', info.end, info) && info.end !in costs
    requires forall q: nat :: q in costs' && !(info.start <= q <= info.end) ==> q in costs
    ensures info.end !in cascades && Built(c, costs', cascades[info.end := info], peak')
  {
    var cascades' := cascades[info.end := info];
    OthersStay(c, costs, cascades, peak, costs', peak');
    assert info.end !in cascades;
    forall e: nat | e in cascades' ensures Recorded(c, costs', peak', e, cascades'[e]) {
    }
    forall q: nat | q in costs' ensures InCascade(cascades', q) || OnItsOwn(c, costs', peak', q) {
      if InCascade(cascades, q) || info.start <= q <= info.end {
        StillInCascade(cascades, info.end, info, q);
      }
    }
  }

  lemma LastCommitted(c: Setting, costs: map<nat, OpInfo>, costs': map<nat, OpInfo>, info: CascadeInfo)
    requires info.start < info.end
             && Committing(c, costs, costs', info.buffers, info.start, info.end, CountOf(info.start, info.end))
    ensures forall p: nat :: info.start <= p <= info.end ==>
              p in costs' && costs'[p] == CostIn(c, info.start, info.end, p)
  {
    var s, end := info.start, info.end;
    forall p: nat | s <= p <= end ensures p in costs' && costs'[p] == CostIn(c, s, end, p) {
      assert CommittedCost(c, costs', s, end, CountOf(s, end), p);
    }
  }

  /** No operator is in two cascades. */
  lemma CascadesAreDisjoint(c: Setting, costs: map<nat, OpInfo>, cascades: map<nat, CascadeInfo>, peak: int, e: nat,
                            e': nat, p: nat)
    requires Built(c, costs, cascades, peak) && e in cascades && e' in cascades
    requires cascades[e].start <= p <= e && cascades[e'].start <= p <= e'
    ensures e == e'
  {
    assert Look(0) && Recorded(c, costs, peak, e, cascades[e]) && Recorded(c, costs, peak, e', cascades[e']);
    assert costs[p] == CostIn(c, cascades[e].start, e, p) && costs[p] == CostIn(c, cascades[e'].start, e', p);
  }

  lemma RecordIsARun(c: Setting, costs: map<nat, OpInfo>, peak: int, e: nat, info: CascadeInfo)
    requires Record(c, costs, peak, e, info)
    ensures info.end == e && info.start < e < |c.ops|
    ensures forall p: nat :: info.start <= p < e ==> |c.ops[p].consumers| == 1 && c.ops[p].consumers[0] == p + 1
    ensures forall p: nat :: info.start <= p <= e ==>
              p in costs && costs[p].cascade == e && costs[p].firstInCascade == (p == info.start)
    ensures forall p: nat :: p in info.buffers <==> info.start < p <= e
  {
    forall p: nat | info.start <= p < e ensures |c.ops[p].consumers| == 1 && c.ops[p].consumers[0] == p + 1 {
      assert c.Links(p);
    }
  }

  /**
   * A recorded cascade is a run of at least two consecutive operators, each but the last with the next
   * as its only consumer; buffers are recorded for exactly the operators behind the first.
   */
  lemma CascadeIsARun(c: Setting, costs: map<nat, OpInfo>, cascades: map<nat, CascadeInfo>, peak: int, e: nat)
    requires Built(c, costs, cascades, peak) && e in cascades
    ensures cascades[e].end == e && cascades[e].start < e < |c.ops|
    ensures forall p: nat :: cascades[e].start <= p < e ==> |c.ops[p].consumers| == 1 && c.ops[p].consumers[0] == p + 1
    ensures forall p: nat :: cascades[e].start <= p <= e ==>
              p in costs && costs[p].cascade == e && costs[p].firstInCascade == (p == cascades[e].start)
    ensures forall p: nat :: p in cascades[e].buffers <==> cascades[e].start < p <= e
  {
    assert Look(0) && Recorded(c, costs, peak, e, cascades[e]);
    RecordIsARun(c, costs, peak, e, cascades[e]);
  }

  // ---- the footprint in terms of what is recorded

  function WeightBytes(c: Setting, s: nat, n: nat): int
    requires forall p: nat :: s <= p < s + n ==> p in c.ref
  {
    if n == 0 then 0 else WeightBytes(c, s, n - 1) + c.ref[s + n - 1].weightBytes
  }

  /** The recorded buffers of the first n operators, but those that share the memory of the one before. */
  function UnsharedBytes(c: Setting, buffers: map<nat, Buffer>, s: nat, n: nat): int
    requires n >= 1 && s + n <= |c.ops| && forall p: nat :: s <= p < s + n ==> p in c.ref
    requires forall p: nat :: s < p < s + n ==> p in buffers
  {
    if n == 1 then 0
    else UnsharedBytes(c, buffers, s, n - 1) + if c.Shared(s, n - 1) then 0 else buffers[s + n - 1].sizeBytes
  }

  lemma {:induction false} BuffersAreRecorded(c: Setting, buffers: map<nat, Buffer>, s: nat, n: nat)
    requires n >= 1 && s + n <= |c.ops| && forall p: nat :: s <= p < s + n ==> p in c.ref
    requires forall p: nat :: s < p < s + n ==> p in buffers && buffers[p] == c.Incoming(s, p - s)
    ensures c.BuffersSize(s, n) == WeightBytes(c, s, n) + UnsharedBytes(c, buffers, s, n)
  {
    if n > 1 {
      BuffersAreRecorded(c, buffers, s, n - 1);
      assert buffers[s + n - 1] == c.Incoming(s, n - 1);
    } else {
      assert WeightBytes(c, s, 0) == 0;
    }
  }

  /** The end tensors of a cascade that stay in staging memory; a spilled one has none. */
  function EndBytes(c: Setting, s: nat, e: nat): nat
    requires s <= e < |c.ops|
  {
    if c.Spills(s) then 0 else c.Stored(c.ops[s].ifm) + c.Stored(c.ops[e].lastOfm)
  }

  lemma FootprintOf(c: Setting, buffers: map<nat, Buffer>, s: nat, n: nat, e: nat)
    requires n >= 1 && e == s + n - 1 && c.Chain(s, n) && CommittedBuffers(c, buffers, s, n)
    ensures forall p: nat :: s < p < s + n ==> p in buffers
    ensures c.LocalSize(s, n) == WeightBytes(c, s, n) + UnsharedBytes(c, buffers, s, n) + EndBytes(c, s, e)
  {
    BuffersAreRecorded(c, buffers, s, n);
  }

  lemma RecordedParts(c: Setting, costs: map<nat, OpInfo>, peak: int, e: nat, info: CascadeInfo)
    requires Recorded(c, costs, peak, e, info)
    ensures info.start <= e == info.end && c.Chain(info.start, CountOf(info.start, e))
    ensures Sized(c, info, info.start, CountOf(info.start, e))
  {
    assert Look(0);
  }

  /**
   * The recorded footprint of a cascade is the sum over exactly its operators: their weight buffers,
   * the recorded buffers that are not shared, and the end tensors in staging.
   */
  lemma FootprintIsRecorded(c: Setting, costs: map<nat, OpInfo>, peak: int, e: nat, info: CascadeInfo)
    requires Recorded(c, costs, peak, e, info)
    ensures info.start <= e < |c.ops| && c.Chain(info.start, CountOf(info.start, e))
    ensures forall p: nat :: info.start < p < info.start + CountOf(info.start, e) ==> p in info.buffers
    ensures var s, n := info.start, CountOf(info.start, e);
            info.localMemUsage == WeightBytes(c, s, n) + UnsharedBytes(c, info.buffers, s, n) + EndBytes(c, s, e)
  {
    RecordedParts(c, costs, peak, e, info);
    FootprintOf(c, info.buffers, info.start, CountOf(info.start, e), e);
  }

  /** The buffers left out of the footprint are those that operators are recorded to share. */
  lemma SharedIsRecorded(c: Setting, costs: map<nat, OpInfo>, peak: int, e: nat, info: CascadeInfo, p: nat)
    requires Recorded(c, costs, peak, e, info) && info.start <= p < e
    ensures e < |c.ops| && c.Chain(info.start, CountOf(info.start, e)) && p in costs
    ensures costs[p].ofmEquivalenceId
            == if c.Shared(info.start, p + 1 - info.start) then c.ops[p].ifm.equivalenceId
              else c.ref[p].ofmEquivalenceId
  {
    RecordedCosts(c, costs, peak, e, info);
    assert costs[p] == CostIn(c, info.start, e, p);
  }

  // ---- the walk over the schedule

  datatype State = State(costs: map<nat, OpInfo>, cascades: map<nat, CascadeInfo>, peak: int, pos: nat)

  /** The operator at the cursor gets its fallback cost. */
  ghost predicate LeftAlone(c: Setting, st: State, st': State)
    requires st.pos < |c.ops| && st.pos in c.fallback
  {
    && st'.costs == st.costs[st.pos := c.fallback[st.pos]] && st'.cascades == st.cascades
    && st'.peak == if c.Spills(st.pos) then st.peak else Max(c.EstimateUncascaded(st.pos), st.peak)
  }

  /** A cascade of the operators s to e is recorded, and nothing else. */
  ghost predicate JoinedTo(c: Setting, st: State, st': State, s: nat, e: nat, size: int)
    requires s < |c.ops|
  {
    && e in st'.cascades && st'.cascades == st.cascades[e := st'.cascades[e]]
    && st'.cascades[e].start == s && Recorded(c, st'.costs, st'.peak, e, st'.cascades[e])
    && s in st'.costs && Extends(st.costs, st'.costs)
       && (forall p: nat :: p in st'.costs && !(s <= p <= e) ==> p in st.costs)
    && st'.peak == if c.Spills(s) then st.peak else Max(size, st.peak)
  }

  /** The last operator of a cascade from the cursor on. */
  function LastOf(st: State, best: Choice): nat
    requires best.n >= 1
  {
    st.pos + best.n - 1
  }

  /** The best cascade from the cursor on is recorded. */
  ghost predicate Joined(c: Setting, st: State, st': State, best: Choice)
    requires st.pos < |c.ops| && best.n >= 1
  {
    JoinedTo(c, st, st', st.pos, LastOf(st, best), best.size)
  }

  /** A cascade whose operators have just been recorded. */
  lemma JoinsCascade(c: Setting, st: State, st': State, best: Choice, info: CascadeInfo)
    requires c.Valid() && Built(c, st.costs, st.cascades, st.peak) && st.pos < |c.ops| && best.n > 1
    requires Free(st.costs, st.pos, best.n) && Chosen(c, st.pos, st.peak, best)
    requires info.start == st.pos && info.end == LastOf(st, best)
    requires info.memUsage == best.size && info.localMemUsage == c.LocalSize(st.pos, best.n)
    requires Committing(c, st.costs, st'.costs, info.buffers, info.start, info.end, best.n)
    requires st'.cascades == st.cascades[info.end := info] && st'.pos == st.pos
    requires st'.peak == if c.Spills(st.pos) then st.peak else Max(best.size, st.peak)
    ensures Built(c, st'.costs, st'.cascades, st'.peak) && Joined(c, st, st', best)
  {
    CommitExtends(c, st.costs, st'.costs, info.buffers, info.start, info.end, best.n);
    NewlyRecorded(c, st.costs, st.peak, st'.costs, info, st'.peak);
    BuiltCascade(c, st.costs, st.cascades, st.peak, st'.costs, info, st'.peak);
  }

  ghost predicate Settled(c: Setting, st: State, st': State, best: Choice)
    requires st.pos < |c.ops| && st.pos in c.fallback
  {
    && best.n >= 1 && st'.pos == st.pos
    && if best.n > 1 then Joined(c, st, st', best) else LeftAlone(c, st, st')
  }

  /** One step of the walk. */
  ghost predicate Visited(c: Setting, st: State, st': State) {
    && c.Valid() && st.pos < |c.ops|
    && if !c.ops[st.pos].isNpu || st.pos in st.costs then st' == st.(pos := st.pos + 1)
       else
         && st.pos in c.ref && st.pos in c.fallback
         && if !c.IsCascadable(st.pos) then LeftAlone(c, st, st') && st'.pos == st.pos + 1
            else exists m: nat, best: Choice ::
                   Proposed(c, st.costs, st.pos, st.peak, m, best) && Settled(c, st, st', best)
  }

  /** The limit that the peak starts from. */
  function StagingLimit(guidingStagingLimit: int): int {
    if guidingStagingLimit < 0x4000_0000 then guidingStagingLimit else 0x4000_0000
  }

  ghost predicate Walking(c: Setting, walk: seq<State>, lo: nat, hi: nat, guidingStagingLimit: int) {
    && |walk| >= 1 && walk[0] == State(map[], map[], StagingLimit(guidingStagingLimit), lo)
    && forall i :: 0 <= i < |walk| - 1 ==> walk[i].pos < hi && Visited(c, walk[i], walk[i + 1])
  }

  /** A walk over the operators from lo to hi. */
  ghost predicate Walk(c: Setting, walk: seq<State>, lo: nat, hi: nat, guidingStagingLimit: int) {
    Walking(c, walk, lo, hi, guidingStagingLimit) && walk[|walk| - 1].pos == hi
  }

  lemma WalkGrows(c: Setting, walk: seq<State>, lo: nat, hi: nat, guidingStagingLimit: int, st: State)
    requires Walking(c, walk, lo, hi, guidingStagingLimit)
    requires walk[|walk| - 1].pos < hi && Visited(c, walk[|walk| - 1], st)
    ensures Walking(c, walk + [st], lo, hi, guidingStagingLimit)
  {
  }

  /** A step moves the cursor on, or gives the operator at the cursor its cost; what was recorded stays. */
  lemma VisitMoves(c: Setting, st: State, st': State)
    requires Visited(c, st, st')
    ensures Extends(st.costs, st'.costs) && st'.peak >= st.peak && (c.Spills(st.pos) ==> st'.peak == st.peak)
    ensures if st'.pos == st.pos then st.pos !in st.costs && st.pos in st'.costs
            else st'.pos == st.pos + 1 && (c.ops[st.pos].isNpu ==> st.pos in st'.costs)
  {
  }

  lemma RecordIsDetermined(c: Setting, costs: map<nat, OpInfo>, peak: int, costs': map<nat, OpInfo>, peak': int, e: nat,
                           info: CascadeInfo, info': CascadeInfo)
    requires Recorded(c, costs, peak, e, info) && Recorded(c, costs', peak', e, info') && info.start == info'.start
    ensures info == info'
  {
    RecordedParts(c, costs, peak, e, info);
    RecordedParts(c, costs', peak', e, info');
    assert info.buffers == info'.buffers;
  }

  lemma RecordedCosts(c: Setting, costs: map<nat, OpInfo>, peak: int, e: nat, info: CascadeInfo)
    requires Recorded(c, costs, peak, e, info)
    ensures info.start <= e < |c.ops| && c.Chain(info.start, CountOf(info.start, e))
    ensures forall p: nat :: info.start <= p <= e ==> p in costs && costs[p] == CostIn(c, info.start, e, p)
  {
    assert Look(0);
  }

  lemma CostsAreDetermined(c: Setting, costs0: map<nat, OpInfo>, costs: map<nat, OpInfo>, peak: int,
                           costs': map<nat, OpInfo>, peak': int,
                           e: nat, info: CascadeInfo)
    requires Recorded(c, costs, peak, e, info) && Recorded(c, costs', peak', e, info)
    requires Extends(costs0, costs) && forall p: nat :: p in costs && !(info.start <= p <= e) ==> p in costs0
    requires Extends(costs0, costs') && forall p: nat :: p in costs' && !(info.start <= p <= e) ==> p in costs0
    ensures costs == costs'
  {
    RecordedCosts(c, costs, peak, e, info);
    RecordedCosts(c, costs', peak', e, info);
    forall p: nat ensures (p in costs <==> p in costs') && (p in costs ==> costs[p] == costs'[p]) {
      if !(info.start <= p <= e) && p in costs0 {
        assert costs[p] == costs0[p] && costs'[p] == costs0[p];
      }
    }
  }

  lemma JoinedIsDetermined(c: Setting, st: State, a: State, b: State, s: nat, e: nat, size: int)
    requires s < |c.ops| && JoinedTo(c, st, a, s, e, size) && JoinedTo(c, st, b, s, e, size) && a.pos == b.pos
    ensures a == b
  {
    RecordIsDetermined(c, a.costs, a.peak, b.costs, b.peak, e, a.cascades[e], b.cascades[e]);
    CostsAreDetermined(c, st.costs, a.costs, a.peak, b.costs, b.peak, e, a.cascades[e]);
  }

  lemma SettledIsDetermined(c: Setting, st: State, a: State, b: State, best: Choice)
    requires st.pos < |c.ops| && st.pos in c.fallback && Settled(c, st, a, best) && Settled(c, st, b, best)
    ensures a == b
  {
    if best.n > 1 {
      JoinedIsDetermined(c, st, a, b, st.pos, LastOf(st, best), best.size);
    }
  }

  /** A step has one outcome. */
  lemma VisitIsDeterministic(c: Setting, st: State, a: State, b: State)
    requires Visited(c, st, a) && Visited(c, st, b)
    ensures a == b
  {
    if c.ops[st.pos].isNpu && st.pos !in st.costs && c.IsCascadable(st.pos) {
      var m: nat, best :| Proposed(c, st.costs, st.pos, st.peak, m, best) && Settled(c, st, a, best);
      var m': nat, best' :| Proposed(c, st.costs, st.pos, st.peak, m', best') && Settled(c, st, b, best');
      ProposalIsUnique(c, st.costs, st.pos, st.peak, m, best, m', best');
      SettledIsDetermined(c, st, a, b, best);
    }
  }

  /** So the setting, the operators and the limit determine the whole walk. */
  lemma {:induction false} WalkIsDetermined(c: Setting, a: seq<State>, b: seq<State>, lo: nat, hi: nat,
                                            guidingStagingLimit: int, k: nat)
    requires Walk(c, a, lo, hi, guidingStagingLimit) && Walk(c, b, lo, hi, guidingStagingLimit) && k < |a|
    ensures k < |b| && a[k] == b[k]
    ensures k == |a| - 1 ==> a == b
  {
    if k > 0 {
      WalkIsDetermined(c, a, b, lo, hi, guidingStagingLimit, k - 1);
      assert a[k - 1].pos < hi;
      assert k < |b|;
      assert Visited(c, a[k - 1], a[k]) && Visited(c, b[k - 1], b[k]);
      VisitIsDeterministic(c, a[k - 1], a[k], b[k]);
    }
    if k == |a| - 1 {
      assert k == |b| - 1;
      forall j | 0 <= j < |a| ensures a[j] == b[j] {
        if j < k {
          WalkIsDetermined(c, a, b, lo, hi, guidingStagingLimit, j);
        }
      }
    }
  }
}
