/** Which cascade the greedy search settles on. */
module CascadeChoice {
  import opened CascadeModel

  /** n operators from s on that no cascade has yet. */
  ghost predicate Free(costs: map<nat, OpInfo>, s: nat, n: nat) {
    forall p: nat :: s <= p < s + n ==> p !in costs
  }

  /** What an operator would use with its whole feature maps in staging memory. */
  function WholeInStaging(c: Setting, p: nat): int
    requires p < |c.ops| && p in c.fallback
  {
    var op := c.ops[p];
    var ifm, ofm := Buffer(op.ifm.shape, op.ifm.allocationBytes), Buffer(op.lastOfm.shape, op.lastOfm.allocationBytes);
    ifm.sizeBytes + c.NonLocalUsage(p) + if c.CanReuse(p, c.fallback[p], ifm, ofm) then 0 else ofm.sizeBytes
  }

  /** A number of operators from the start, and the memory they use. */
  datatype Choice = Choice(n: nat, size: int)

  /** m operators become the best cascade, where the best so far uses `size`. */
  ghost predicate Keeps(c: Setting, s: nat, m: nat, size: int, peak: int)
    requires c.Valid() && c.Chain(s, m)
  {
    if c.Spills(s) then WholeInStaging(c, s + m - 1) >= peak && c.BuffersSize(s, m) <= peak
    else c.CascadeSize(s, m) < size || c.CascadeSize(s, m) < c.EstimateUncascaded(s + m - 1)
  }

  /** The best cascade among the first m operators. */
  ghost function Best(c: Setting, s: nat, m: nat, peak: int): (best: Choice)
    requires c.Valid() && c.Chain(s, m)
    ensures 1 <= best.n <= m
  {
    if m == 1 then Choice(1, c.EstimateUncascaded(s))
    else
      var before := Best(c, s, m - 1, peak);
      if Keeps(c, s, m, before.size, peak) then Choice(m, c.CascadeSize(s, m)) else before
  }

  /**
   * The search ends with the m-th operator. When spilling: it fits in its entirety, or the buffers no
   * longer fit. Otherwise: both it and the best cascade fit, or the cascade cannot shrink any more.
   */
  ghost predicate Ends(c: Setting, s: nat, m: nat, peak: int)
    requires c.Valid() && c.Chain(s, m)
  {
    var last, best := s + m - 1, Best(c, s, m, peak).size;
    if c.Spills(s) then WholeInStaging(c, last) < peak || c.BuffersSize(s, m) > peak
    else
      || (c.EstimateUncascaded(last) < peak && best < peak)
      || c.CascadeSize(s, m) - c.Stored(c.ops[last].lastOfm) > best
  }

  /** The search gets to the m-th operator. */
  ghost predicate Reaches(c: Setting, costs: map<nat, OpInfo>, s: nat, m: nat, peak: int)
    requires c.Valid()
  {
    c.Chain(s, m) && Free(costs, s, m) && forall k: nat :: 2 <= k < m ==> !Ends(c, s, k, peak)
  }

  /** One more operator in the chain. */
  lemma ChainGrows(c: Setting, s: nat, m: nat)
    requires c.Chain(s, m) && c.Links(s + m - 1)
    ensures c.Chain(s, m + 1)
  {
  }

  /** The search goes on to the next operator if that can join and the cascade has not come to its end. */
  lemma ReachesNext(c: Setting, costs: map<nat, OpInfo>, s: nat, m: nat, peak: int)
    requires c.Valid() && Reaches(c, costs, s, m, peak)
    ensures Reaches(c, costs, s, m + 1, peak)
            <==> c.Links(s + m - 1) && s + m !in costs && (m >= 2 ==> !Ends(c, s, m, peak))
  {
    var next, last: nat := m + 1, s + m - 1;
    if Reaches(c, costs, s, next, peak) {
      assert s <= last < s + next - 1;
    } else if c.Links(last) && s + m !in costs && (m >= 2 ==> !Ends(c, s, m, peak)) {
      ChainGrows(c, s, m);
    }
  }

  /** The search stops after m operators and settles on the best of them. */
  ghost predicate Proposed(c: Setting, costs: map<nat, OpInfo>, s: nat, peak: int, m: nat, best: Choice)
    requires c.Valid()
  {
    Reaches(c, costs, s, m, peak) && !Reaches(c, costs, s, m + 1, peak) && best == Best(c, s, m, peak)
  }

  /** The search stops at one place only. */
  lemma ProposalIsUnique(c: Setting, costs: map<nat, OpInfo>, s: nat, peak: int, m: nat, best: Choice, m': nat,
                         best': Choice)
    requires c.Valid() && Proposed(c, costs, s, peak, m, best) && Proposed(c, costs, s, peak, m', best')
    ensures m == m' && best == best'
  {
    if m < m' {
      ReachesLess(c, costs, s, m', peak, m + 1);
    } else if m' < m {
      ReachesLess(c, costs, s, m, peak, m' + 1);
    }
  }

  lemma ReachesLess(c: Setting, costs: map<nat, OpInfo>, s: nat, m: nat, peak: int, k: nat)
    requires c.Valid() && Reaches(c, costs, s, m, peak) && 1 <= k <= m
    ensures Reaches(c, costs, s, k, peak)
  {
  }

  /** A spilled cascade takes in every operator the search reaches, but the one it ends with. */
  lemma {:induction false} SpilledIsLongest(c: Setting, costs: map<nat, OpInfo>, s: nat, m: nat, peak: int)
    requires c.Valid() && Reaches(c, costs, s, m, peak) && c.Spills(s)
    ensures Best(c, s, m, peak).n == if m >= 2 && Ends(c, s, m, peak) then m - 1 else m
    decreases m
  {
    if m >= 2 {
      ReachesLess(c, costs, s, m, peak, m - 1);
      SpilledIsLongest(c, costs, s, m - 1, peak);
      assert Keeps(c, s, m, Best(c, s, m - 1, peak).size, peak) == !Ends(c, s, m, peak);
    }
  }

  /**
   * Of the cascades the search reaches, none longer than the best uses less memory than it does, or than
   * its last operator does on its own.
   */
  lemma {:induction false} LongerAreNoBetter(c: Setting, s: nat, m: nat, peak: int, k: nat)
    requires c.Valid() && c.Chain(s, m) && !c.Spills(s) && Best(c, s, m, peak).n < k <= m
    ensures c.Chain(s, k)
    ensures c.CascadeSize(s, k) >= Best(c, s, m, peak).size && c.CascadeSize(s, k) >= c.EstimateUncascaded(s + k - 1)
    decreases m
  {
    BestStays(c, s, m, peak);
    if k < m {
      LongerAreNoBetter(c, s, m - 1, peak, k);
    }
  }

  /** When the m-th operator does not join, its cascade is no better. */
  lemma BestStays(c: Setting, s: nat, m: nat, peak: int)
    requires c.Valid() && c.Chain(s, m) && !c.Spills(s) && Best(c, s, m, peak).n < m
    ensures c.Chain(s, m - 1) && Best(c, s, m - 1, peak) == Best(c, s, m, peak)
    ensures c.CascadeSize(s, m) >= Best(c, s, m, peak).size
    ensures c.CascadeSize(s, m) >= c.EstimateUncascaded(s + m - 1)
  {
    var before := Best(c, s, m - 1, peak);
    assert !Keeps(c, s, m, before.size, peak);
  }

  /** One of the n operators from s on would use more memory than size on its own. */
  ghost predicate CheaperThanOne(c: Setting, s: nat, n: nat, size: int) {
    exists p: nat :: s <= p < s + n && size < c.EstimateUncascaded(p)
  }

  /**
   * Why a cascade is worth having. A spilled one fits the limit; any other uses less memory than one of
   * its operators would on its own.
   */
  ghost predicate Chosen(c: Setting, s: nat, peak: int, best: Choice) {
    && c.Chain(s, best.n)
    && if best.n == 1 then best.size == c.EstimateUncascaded(s)
       else best.size == c.CascadeSize(s, best.n)
            && if c.Spills(s) then best.size <= peak else CheaperThanOne(c, s, best.n, best.size)
  }

  lemma {:induction false} BestIsChosen(c: Setting, s: nat, m: nat, peak: int)
    requires c.Valid() && c.Chain(s, m)
    ensures Chosen(c, s, peak, Best(c, s, m, peak))
    decreases m
  {
    if m >= 2 {
      BestIsChosen(c, s, m - 1, peak);
      var before, here := Best(c, s, m - 1, peak), c.CascadeSize(s, m);
      if Keeps(c, s, m, before.size, peak) && !c.Spills(s) {
        KeptIsCheaper(c, s, m, peak, before, here);
      }
    }
  }

  /** A size below the best one is below what some operator of the longer cascade would use on its own. */
  lemma KeptIsCheaper(c: Setting, s: nat, m: nat, peak: int, before: Choice, size: int)
    requires Chosen(c, s, peak, before) && !c.Spills(s) && before.n <= m
    requires size < before.size || size < c.EstimateUncascaded(s + m - 1)
    ensures CheaperThanOne(c, s, m, size)
  {
    if size < c.EstimateUncascaded(s + m - 1) {
      var p: nat := s + m - 1;
      assert s <= p < s + m && size < c.EstimateUncascaded(p);
    } else if before.n == 1 {
      assert s <= s < s + m && size < c.EstimateUncascaded(s);
    } else {
      var p: nat :| s <= p < s + before.n && before.size < c.EstimateUncascaded(p);
      assert s <= p < s + m && size < c.EstimateUncascaded(p);
    }
  }
}
