/** What the parameter search minimises, in bits of the slices. */
module SearchedBits {
  import opened Folding
  import opened SliceFormat
  import opened GrcParams
  import opened GrcSearch
  import opened GrcEncoder
  import opened SliceEncoder
  import opened SliceLength

  // ---- the two parts of the cost

  ghost function CodeSum(p: Problem, a: seq<nat>): nat
    requires IsAssignment(p, a)
  {
    if a == [] then 0
    else
      var k := |a| - 1;
      CodeSum(p, a[..k]) + p.CodeBits(a[k], p.vals[k])
  }

  ghost function SwitchSum(p: Problem, a: seq<nat>): nat
    requires IsAssignment(p, a)
  {
    if a == [] then 0
    else
      var k := |a| - 1;
      SwitchSum(p, a[..k]) + if k > 0 && a[k] != a[k - 1] then p.SwitchCost(k) else 0
  }

  lemma {:induction false} CostSplits(p: Problem, a: seq<nat>)
    requires IsAssignment(p, a)
    ensures Cost(p, a) == CodeSum(p, a) + SwitchSum(p, a)
  {
    if a != [] {
      CostSplits(p, a[..|a| - 1]);
    }
  }

  /** What a search was given and what it found. */
  datatype Searched = Searched(p: Problem, cfgs: seq<nat>, ps: seq<nat>, a: seq<nat>, bits: nat) {
    ghost predicate Valid() {
      && Optimal(p, a, bits) && SectionEnds(ps, |p.vals|) && |cfgs| == |ps| && Describes(cfgs, ps, a)
      && forall s :: 0 <= s < |cfgs| ==> cfgs[s] < p.Configs()
    }
  }

  // ---- the price of a code is its length

  /** The weights of section s can be coded in its configuration; uncompressed mode has its price. */
  ghost predicate Priced(p: Problem, s: Slice, cfg: nat) {
    && !p.zrunMode && cfg < NWCFG && s.mode == ModeOf(cfg)
    && (cfg == 12 ==> p.uncompressedBits == s.setup.UncompressedBits())
  }

  lemma WeightPrice(p: Problem, s: Slice, cfg: nat, v: nat)
    requires Priced(p, s, cfg) && s.CanCode(v)
    ensures p.CodeBits(cfg, v) == WeightCode(s, v)
  {
  }

  lemma RunPrice(p: Problem, s: Slice, cfg: nat, v: nat)
    requires p.zrunMode && cfg < NZCFG && s.zdiv == Z_GRC_PARAMS[cfg] % 16
    ensures p.CodeBits(cfg, v) == RunCode(s, v)
  {
  }

  lemma NextCode(p: Problem, a: seq<nat>, k: nat)
    requires IsAssignment(p, a) && k < |a|
    ensures IsAssignment(p, a[..k]) && IsAssignment(p, a[..k + 1])
    ensures CodeSum(p, a[..k + 1]) == CodeSum(p, a[..k]) + p.CodeBits(a[k], p.vals[k])
  {
    assert a[..k + 1][..k] == a[..k];
  }

  lemma {:induction false} WeightsPaid(p: Problem, s: Slice, cfg: nat, a: seq<nat>, pos: nat, endpos: nat)
    requires IsAssignment(p, a) && pos <= endpos <= |a| && Priced(p, s, cfg)
    requires forall k :: pos <= k < endpos ==> a[k] == cfg && s.CanCode(p.vals[k])
    ensures IsAssignment(p, a[..pos]) && IsAssignment(p, a[..endpos])
    ensures CodeSum(p, a[..endpos]) == CodeSum(p, a[..pos]) + WeightCodes(s, p.vals[pos..endpos])
    decreases endpos - pos
  {
    if pos < endpos {
      NextCode(p, a, pos);
      WeightPrice(p, s, cfg, p.vals[pos]);
      WeightsPaid(p, s, cfg, a, pos + 1, endpos);
      assert p.vals[pos..endpos][1..] == p.vals[pos + 1..endpos];
    }
  }

  lemma {:induction false} RunsPaid(p: Problem, s: Slice, cfg: nat, a: seq<nat>, pos: nat, endpos: nat)
    requires IsAssignment(p, a) && pos <= endpos <= |a|
    requires p.zrunMode && cfg < NZCFG && s.zdiv == Z_GRC_PARAMS[cfg] % 16
    requires forall k :: pos <= k < endpos ==> a[k] == cfg
    ensures IsAssignment(p, a[..pos]) && IsAssignment(p, a[..endpos])
    ensures CodeSum(p, a[..endpos]) == CodeSum(p, a[..pos]) + RunCodes(s, p.vals[pos..endpos])
    decreases endpos - pos
  {
    if pos < endpos {
      NextCode(p, a, pos);
      RunPrice(p, s, cfg, p.vals[pos]);
      RunsPaid(p, s, cfg, a, pos + 1, endpos);
      assert p.vals[pos..endpos][1..] == p.vals[pos + 1..endpos];
    }
  }

  // ---- runs are coded late

  /** Section i is the one that pos is in. */
  ghost predicate StandsIn(ps: seq<nat>, i: nat, pos: nat) {
    i <= |ps| && (i > 0 ==> ps[i - 1] <= pos) && (i < |ps| ==> pos < ps[i])
  }

  /**
   * A slice from pos to endpos has the runs behind its weights, up to the one at endpos. They are in
   * section i of the search, except the run at the end of that section, which is in the next.
   */
  lemma RunsOfSection(ps: seq<nat>, i: nat, pos: nat, endpos: nat, k: nat)
    requires StandsIn(ps, i, pos) && i < |ps| && pos < endpos <= ps[i] && pos <= k <= endpos
    ensures InSection(ps, i, k) <==> k != ps[i]
  {
  }

  /** The configurations that runs are written in: at a switch, still the one before. */
  function Lagged(a: seq<nat>, ps: seq<nat>): (b: seq<nat>)
    ensures |b| == |a|
  {
    seq(|a|, k requires 0 <= k < |a| => if k > 0 && k in ps then a[k - 1] else a[k])
  }

  lemma NotAnEnd(ps: seq<nat>, i: nat, k: nat)
    requires Increasing(ps) && i < |ps| && k < ps[i] && (i > 0 ==> ps[i - 1] < k)
    ensures k == 0 || k !in ps
  {
    forall m | 0 <= m < |ps| ensures ps[m] != k {
      if m < i {
        assert ps[m] <= ps[i - 1];
      }
    }
  }

  lemma LaggedAt(cfgs: seq<nat>, ps: seq<nat>, a: seq<nat>, i: nat, k: nat)
    requires Increasing(ps) && Describes(cfgs, ps, a) && i < |ps| && k <= ps[i] && k < |a|
    requires if i == 0 then 0 < ps[0] else ps[i - 1] < k
    ensures Lagged(a, ps)[k] == cfgs[i]
  {
    if k == ps[i] {
      assert InSection(ps, i, k - 1);
    } else {
      NotAnEnd(ps, i, k);
      assert InSection(ps, i, k);
    }
  }

  // ---- the slices of a section

  /**
   * The slices up to weight pos have as many bits of codes as the searches have charged, with runs
   * charged in the configuration they are written in.
   */
  ghost predicate PaidUp(ss: seq<Slice>, useZeroRuns: bool, w: Searched, z: Searched, pos: nat) {
    && w.Valid() && pos <= |w.a| && AllWeightCodes(ss) == CodeSum(w.p, w.a[..pos])
    && (useZeroRuns ==>
          z.Valid() && |z.a| == |w.a| + 1 && IsAssignment(z.p, Lagged(z.a, z.ps))
          && AllRunCodes(ss) == CodeSum(z.p, Lagged(z.a, z.ps)[..if pos == 0 then 0 else pos + 1]))
  }

  ghost predicate Paid(ss: seq<Slice>, useZeroRuns: bool, w: Searched, z: Searched, pos: nat) {
    forall n: int :: Look(n) ==> PaidUp(ss, useZeroRuns, w, z, pos)
  }

  lemma NothingPaid(useZeroRuns: bool, w: Searched, z: Searched)
    requires w.Valid() && (useZeroRuns ==> z.Valid() && |z.a| == |w.a| + 1)
    ensures Paid([], useZeroRuns, w, z, 0)
  {
    assert w.a[..0] == [];
    if useZeroRuns {
      LaggedAssigns(z);
      assert Lagged(z.a, z.ps)[..0] == [];
    }
  }

  lemma LaggedAssigns(z: Searched)
    requires z.Valid()
    ensures IsAssignment(z.p, Lagged(z.a, z.ps))
  {
  }

  lemma PaidMore(ss: seq<Slice>, s: Slice, w: Searched, z: Searched, pos: nat, endpos: nat)
    requires PaidUp(ss, s.useZeroRuns, w, z, pos) && pos < endpos <= |w.a|
    requires CodeSum(w.p, w.a[..endpos]) == CodeSum(w.p, w.a[..pos]) + WeightCodes(s, s.weights)
    requires s.useZeroRuns ==>
               CodeSum(z.p, Lagged(z.a, z.ps)[..endpos + 1])
               == CodeSum(z.p, Lagged(z.a, z.ps)[..if pos == 0 then 0 else pos + 1]) + RunCodes(s, s.runs)
    ensures PaidUp(ss + [s], s.useZeroRuns, w, z, endpos)
  {
    CodesSnoc(ss, s);
  }

  /** The next slice of a section, written in configurations iW and iZ of what was found. */
  lemma NextPaid(ss: seq<Slice>, s: Slice, w: Searched, z: Searched, pos: nat, endpos: nat, iW: nat, iZ: nat)
    requires w.Valid() && !w.p.zrunMode && pos < endpos <= |w.a|
    requires StandsIn(w.ps, iW, pos) && iW < |w.ps| && endpos <= w.ps[iW]
    requires Priced(w.p, s, w.cfgs[iW]) && s.Valid() && s.weights == w.p.vals[pos..endpos]
    requires s.useZeroRuns ==> z.Valid() && z.p.zrunMode && |z.a| == |w.a| + 1
                               && StandsIn(z.ps, iZ, pos) && iZ < |z.ps| && endpos <= z.ps[iZ]
                               && s.zdiv == Z_GRC_PARAMS[z.cfgs[iZ]] % 16
                               && s.runs == z.p.vals[if pos == 0 then 0 else pos + 1..endpos + 1]
    requires Paid(ss, s.useZeroRuns, w, z, pos)
    ensures Paid(ss + [s], s.useZeroRuns, w, z, endpos)
  {
    assert Look(0);
    NextWeightsPaid(s, w, pos, endpos, iW);
    if s.useZeroRuns {
      NextRunsPaid(s, z, pos, endpos, iZ);
    }
    PaidMore(ss, s, w, z, pos, endpos);
  }

  lemma NextWeightsPaid(s: Slice, w: Searched, pos: nat, endpos: nat, i: nat)
    requires w.Valid() && !w.p.zrunMode && pos < endpos <= |w.a|
    requires StandsIn(w.ps, i, pos) && i < |w.ps| && endpos <= w.ps[i]
    requires Priced(w.p, s, w.cfgs[i]) && s.Valid() && s.weights == w.p.vals[pos..endpos]
    ensures CodeSum(w.p, w.a[..endpos]) == CodeSum(w.p, w.a[..pos]) + WeightCodes(s, s.weights)
  {
    forall k | pos <= k < endpos ensures w.a[k] == w.cfgs[i] && s.CanCode(w.p.vals[k]) {
      assert InSection(w.ps, i, k);
      assert s.weights[k - pos] == w.p.vals[k];
    }
    WeightsPaid(w.p, s, w.cfgs[i], w.a, pos, endpos);
  }

  lemma NextRunsPaid(s: Slice, z: Searched, pos: nat, endpos: nat, i: nat)
    requires z.Valid() && z.p.zrunMode && pos < endpos < |z.a|
    requires StandsIn(z.ps, i, pos) && i < |z.ps| && endpos <= z.ps[i] && s.zdiv == Z_GRC_PARAMS[z.cfgs[i]] % 16
    ensures var b, start := Lagged(z.a, z.ps), if pos == 0 then 0 else pos + 1;
            && IsAssignment(z.p, b)
            && CodeSum(z.p, b[..endpos + 1])
               == CodeSum(z.p, b[..start]) + RunCodes(s, z.p.vals[start..endpos + 1])
  {
    var start := if pos == 0 then 0 else pos + 1;
    LaggedAssigns(z);
    forall k | start <= k < endpos + 1 ensures Lagged(z.a, z.ps)[k] == z.cfgs[i] {
      LaggedAt(z.cfgs, z.ps, z.a, i, k);
    }
    RunsPaid(z.p, s, z.cfgs[i], Lagged(z.a, z.ps), start, endpos + 1);
  }
}
