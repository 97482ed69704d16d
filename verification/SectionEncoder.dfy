/** The encoder of a palette section: weights and zero runs, their parameters, and the slices. */
module SectionEncoder {
  import opened Folding
  import opened Bits
  import opened BitBuf
  import opened SliceFormat
  import opened GrcParams
  import opened GrcSearch
  import opened GrcEncoder
  import opened Palettes
  import opened SliceEncoder
  import opened SliceLength
  import opened SearchedBits
  import opened Sequences

  // ---- weights and runs

  lemma {:induction false} InterleaveConcat(p: Setup, a: seq<nat>, ra: seq<nat>, b: seq<nat>, rb: seq<nat>)
    requires (ra == [] && rb == []) || (|ra| == |a| && |rb| == |b|)
    ensures Interleave(p, a + b, ra + rb) == Interleave(p, a, ra) + Interleave(p, b, rb)
  {
    if a == [] {
      assert a + b == b && ra + rb == rb;
      assert Interleave(p, a, ra) == [];
    } else {
      assert (a + b)[1..] == a[1..] + b && (a + b)[0] == a[0];
      if ra == [] {
        InterleaveConcat(p, a[1..], [], b, rb);
        assert ra + rb == [] && [] + rb == rb;
        InterleaveHead(p, a + b, ra + rb);
        InterleaveHead(p, a, ra);
        Regroup([WeightOf(p, a[0])], [], Interleave(p, a[1..], []), Interleave(p, b, rb));
      } else {
        assert (ra + rb)[1..] == ra[1..] + rb && (ra + rb)[0] == ra[0];
        InterleaveConcat(p, a[1..], ra[1..], b, rb);
        InterleaveHead(p, a + b, ra + rb);
        InterleaveHead(p, a, ra);
        Regroup([WeightOf(p, a[0])], Zeros(ra[0]), Interleave(p, a[1..], ra[1..]), Interleave(p, b, rb));
      }
    }
  }

  lemma InterleaveHead(p: Setup, a: seq<nat>, ra: seq<nat>)
    requires a != [] && (ra != [] ==> |ra| == |a|)
    ensures Interleave(p, a, ra)
            == [WeightOf(p, a[0])] + ((if ra == [] then [] else Zeros(ra[0]))
                                      + Interleave(p, a[1..], if ra == [] then [] else ra[1..]))
  {
  }

  lemma Regroup(a: seq<int>, b: seq<int>, c: seq<int>, d: seq<int>)
    ensures a + (b + (c + d)) == (a + (b + c)) + d
  {
  }

  /** Appending one weight with its run. */
  lemma InterleaveSnoc(p: Setup, a: seq<nat>, ra: seq<nat>, w: nat, r: nat)
    requires |ra| == |a|
    ensures Interleave(p, a + [w], ra + [r]) == Interleave(p, a, ra) + [WeightOf(p, w)] + Zeros(r)
  {
    InterleaveConcat(p, a, ra, [w], [r]);
    InterleaveHead(p, [w], [r]);
    assert Interleave(p, [w][1..], [r][1..]) == [];
    assert [WeightOf(p, w)] + (Zeros(r) + []) == [WeightOf(p, w)] + Zeros(r);
    assert Interleave(p, a, ra) + ([WeightOf(p, w)] + Zeros(r)) == Interleave(p, a, ra) + [WeightOf(p, w)] + Zeros(r);
  }

  lemma InterleaveSnocPlain(p: Setup, a: seq<nat>, w: nat)
    ensures Interleave(p, a + [w], []) == Interleave(p, a, []) + [WeightOf(p, w)]
  {
    InterleaveConcat(p, a, [], [w], []);
    InterleaveHead(p, [w], []);
    assert Interleave(p, [w][1..], []) == [];
    assert [WeightOf(p, w)] + ([] + []) == [WeightOf(p, w)];
    var none: seq<nat> := [];
    assert none + none == none;
  }

  /** What weights and runs stand for: a first run, then every weight with the run that follows it. */
  function Joined(p: Setup, useZeroRuns: bool, weights: seq<nat>, runs: seq<nat>): seq<int>
    requires |runs| == if useZeroRuns then |weights| + 1 else 0
  {
    if useZeroRuns then Zeros(runs[0]) + Interleave(p, weights, runs[1..]) else Interleave(p, weights, [])
  }

  lemma JoinedSnoc(p: Setup, useZeroRuns: bool, weights: seq<nat>, runs: seq<nat>, w: nat, r: seq<nat>)
    requires |runs| == if useZeroRuns then |weights| + 1 else 0
    requires |r| == if useZeroRuns then 1 else 0
    ensures Joined(p, useZeroRuns, weights + [w], runs + r)
            == Joined(p, useZeroRuns, weights, runs) + [WeightOf(p, w)] + if useZeroRuns then Zeros(r[0]) else []
  {
    if useZeroRuns {
      assert r == [r[0]] && (runs + r)[1..] == runs[1..] + [r[0]];
      InterleaveSnoc(p, weights, runs[1..], w, r[0]);
      var z, a := Zeros(runs[0]), Interleave(p, weights, runs[1..]);
      assert z + (a + [WeightOf(p, w)] + Zeros(r[0])) == z + a + [WeightOf(p, w)] + Zeros(r[0]);
    } else {
      InterleaveSnocPlain(p, weights, w);
      assert Joined(p, useZeroRuns, weights, runs) + [WeightOf(p, w)] + [] == Joined(p, useZeroRuns, weights, runs)
             + [WeightOf(p, w)];
    }
  }

  /** Every index is one that the palette codes. */
  ghost predicate AllCoded(p: Setup, onlyPalette: bool, weights: seq<nat>) {
    forall k :: 0 <= k < |weights| ==>
      weights[k] < 512 && (onlyPalette || p.lut == [] ==> weights[k] < Pow2(p.UncompressedBits()))
  }

  /** Counts zeros from position start on. */
  method CountZeros(inbuf: seq<int>, start: nat) returns (i: nat)
    requires start <= |inbuf|
    ensures start <= i <= |inbuf| && inbuf[start..i] == Zeros(i - start)
    ensures i < |inbuf| ==> inbuf[i] != 0
  {
    i := start;
    while i < |inbuf| && inbuf[i] == 0
      invariant start <= i <= |inbuf| && forall k :: start <= k < i ==> inbuf[k] == 0
    {
      i := i + 1;
    }
  }

  /** n weights are coded among the first i values of a section; each zero is in a run, unless all are zero. */
  ghost predicate WeightsCounted(inbuf: seq<int>, useZeroRuns: bool, onlyZeros: bool, i: nat, n: nat) {
    && i <= |inbuf|
    && if !useZeroRuns then n == i
       else if onlyZeros then n == (if i == 0 then 0 else 1) && (i == 0 || i == |inbuf|)
       else n <= i && (0 in inbuf[..i] <==> n < i)
  }

  lemma FirstRunCounted(inbuf: seq<int>, useZeroRuns: bool, onlyZeros: bool, i: nat)
    requires i <= |inbuf| && if useZeroRuns && !onlyZeros then inbuf[0..i] == Zeros(i) else i == 0
    ensures WeightsCounted(inbuf, useZeroRuns, onlyZeros, i, 0)
  {
    if i > 0 {
      assert inbuf[..i] == inbuf[0..i] && inbuf[..i][0] == 0;
    }
  }

  lemma NextCounted(inbuf: seq<int>, useZeroRuns: bool, onlyZeros: bool, i: nat, next: nat, n: nat)
    requires WeightsCounted(inbuf, useZeroRuns, onlyZeros, i, n) && i < next <= |inbuf|
    requires Coded(inbuf[i], useZeroRuns, onlyZeros)
    requires if useZeroRuns then inbuf[i + 1..next] == Zeros(next - i - 1) && (next < |inbuf| ==> inbuf[next] != 0)
             else next == i + 1
    requires onlyZeros ==> useZeroRuns && forall k :: 0 <= k < |inbuf| ==> inbuf[k] == 0
    ensures WeightsCounted(inbuf, useZeroRuns, onlyZeros, next, n + 1)
  {
    if useZeroRuns && !onlyZeros {
      assert inbuf[..next] == inbuf[..i] + [inbuf[i]] + inbuf[i + 1..next];
      if next > i + 1 {
        assert inbuf[i + 1..next][0] == 0;
      }
    }
  }

  /** Where the runs fit into as many places as the section has values. */
  lemma RunsFit(inbuf: seq<int>, onlyZeros: bool, n: nat)
    requires inbuf != [] && WeightsCounted(inbuf, true, onlyZeros, |inbuf|, n)
    requires if onlyZeros then forall k :: 0 <= k < |inbuf| ==> inbuf[k] == 0
             else exists k :: 0 <= k < |inbuf| && inbuf[k] != 0
    ensures n + 1 <= |inbuf| <==> 0 in inbuf && inbuf != [0]
  {
    assert inbuf[..|inbuf|] == inbuf;
    if onlyZeros {
      assert inbuf[0] in inbuf;
      assert |inbuf| == 1 ==> inbuf == [inbuf[0]];
    }
  }

  /**
   * Splits a section into weight indices and zero runs; at least one weight is coded. The runs fit
   * into an array of the size of the section unless that is one zero, or has none.
   */
  method SplitSection(inbuf: seq<int>, p: Palette) returns (weights: seq<nat>, runs: seq<nat>)
    requires inbuf != [] && p.palsize <= |p.lut|
    requires CodesSection(inbuf, p.useZeroRuns, p.onlyZeros, p.onlyPalette, p.Setup(), p.invLut)
    ensures weights != [] && |runs| == (if p.useZeroRuns then |weights| + 1 else 0)
    ensures Joined(p.Setup(), p.useZeroRuns, weights, runs) == inbuf
    ensures AllCoded(p.Setup(), p.onlyPalette, weights)
    ensures |weights| <= |inbuf|
    ensures p.useZeroRuns ==> (|runs| <= |inbuf| <==> 0 in inbuf && inbuf != [0])
  {
    ghost var setup := p.Setup();
    var useZeroRuns := p.useZeroRuns;
    weights, runs := [], [];
    // the first run; all-zero sections code their first zero as a weight
    var i := 0;
    if useZeroRuns {
      if !p.onlyZeros {
        i := CountZeros(inbuf, 0);
      }
      runs := [i];
    }
    FirstRunStops(inbuf, p, i);
    FirstRunJoined(setup, useZeroRuns, inbuf, i, runs);
    FirstRunCounted(inbuf, useZeroRuns, p.onlyZeros, i);
    while i < |inbuf|
      invariant 0 <= i <= |inbuf| && |runs| == if useZeroRuns then |weights| + 1 else 0
      invariant Joined(setup, useZeroRuns, weights, runs) == inbuf[..i]
      invariant AllCoded(setup, p.onlyPalette, weights)
      invariant WeightsCounted(inbuf, useZeroRuns, p.onlyZeros, i, |weights|)
      invariant i < |inbuf| ==> Coded(inbuf[i], useZeroRuns, p.onlyZeros)
      invariant i == |inbuf| ==> weights != []
    {
      var value, run, next := TakeWeight(inbuf, p, i, |weights|);
      JoinedSnoc(setup, useZeroRuns, weights, runs, value, run);
      weights, runs := weights + [value], runs + run;
      i := next;
    }
    assert inbuf[..i] == inbuf;
    if useZeroRuns {
      RunsFit(inbuf, p.onlyZeros, |weights|);
    }
  }

  /** Takes the index of the weight at i, the n-th, and counts the zeros behind it. */
  method TakeWeight(inbuf: seq<int>, p: Palette, i: nat, ghost n: nat)
    returns (value: nat, run: seq<nat>, next: nat)
    requires i < |inbuf| && p.palsize <= |p.lut| && Coded(inbuf[i], p.useZeroRuns, p.onlyZeros)
    requires CodesSection(inbuf, p.useZeroRuns, p.onlyZeros, p.onlyPalette, p.Setup(), p.invLut)
    requires WeightsCounted(inbuf, p.useZeroRuns, p.onlyZeros, i, n)
    ensures i < next <= |inbuf| && CodesWeight(p.onlyPalette, p.Setup(), value, inbuf[i])
    ensures |run| == if p.useZeroRuns then 1 else 0
    ensures inbuf[..next] == inbuf[..i] + [inbuf[i]] + if p.useZeroRuns then Zeros(run[0]) else []
    ensures next < |inbuf| ==> Coded(inbuf[next], p.useZeroRuns, p.onlyZeros)
    ensures WeightsCounted(inbuf, p.useZeroRuns, p.onlyZeros, next, n + 1)
  {
    value := p.invLut[inbuf[i] + 256];
    next := i + 1;
    run := [];
    if p.useZeroRuns {
      next := CountZeros(inbuf, i + 1);
      run := [next - i - 1];
    }
    PrefixGrows(inbuf, i, next, if p.useZeroRuns then Zeros(run[0]) else []);
    NextCounted(inbuf, p.useZeroRuns, p.onlyZeros, i, next, n);
  }

  lemma FirstRunJoined(p: Setup, useZeroRuns: bool, inbuf: seq<int>, i: nat, runs: seq<nat>)
    requires i <= |inbuf| && runs == (if useZeroRuns then [i] else [])
             && (if useZeroRuns then inbuf[0..i] == Zeros(i) else i == 0)
    ensures Joined(p, useZeroRuns, [], runs) == inbuf[..i]
  {
    if useZeroRuns {
      assert Interleave(p, [], runs[1..]) == [];
      assert inbuf[..i] == inbuf[0..i];
    }
  }

  lemma PrefixGrows(inbuf: seq<int>, i: nat, next: nat, zeros: seq<int>)
    requires i < next <= |inbuf| && inbuf[i + 1..next] == zeros
    ensures inbuf[..next] == inbuf[..i] + [inbuf[i]] + zeros
  {
    assert inbuf[..next] == inbuf[..i] + [inbuf[i]] + inbuf[i + 1..next];
  }

  /** A section does not consist of its first run only. */
  lemma FirstRunStops(inbuf: seq<int>, p: Palette, i: nat)
    requires inbuf != [] && p.palsize <= |p.lut| && i <= |inbuf|
    requires CodesSection(inbuf, p.useZeroRuns, p.onlyZeros, p.onlyPalette, p.Setup(), p.invLut)
    requires if p.useZeroRuns && !p.onlyZeros then inbuf[0..i] == Zeros(i)
             && (i < |inbuf| ==> inbuf[i] != 0) else i == 0
    ensures i < |inbuf| && Coded(inbuf[i], p.useZeroRuns, p.onlyZeros)
  {
    if p.useZeroRuns && !p.onlyZeros {
      forall j | 0 <= j < i ensures inbuf[j] == 0 {
        assert inbuf[j] == inbuf[0..i][j];
      }
    }
  }

  // ---- slices

  /** The least number of bits for palette indices. */
  method PaletteIndexBits(palsize: nat) returns (bits: nat)
    ensures bits == IndexBits(palsize)
  {
    bits := 0;
    while Pow2(bits) < palsize
      invariant IndexBitsFrom(palsize, 0) == IndexBitsFrom(palsize, bits)
      decreases palsize - Pow2(bits)
    {
      bits := bits + 1;
    }
  }

  /** The price of uncompressed mode; 100 stands for not allowed. */
  ghost predicate UncompressedPrice(p: Setup, onlyPalette: bool, bits: nat) {
    if onlyPalette || p.lut == [] then bits == p.UncompressedBits() else bits == 100
  }

  /** What the search found for the weights of a section. */
  ghost predicate WeightPlan(p: Setup, weights: seq<nat>, cfgs: seq<nat>, ps: seq<nat>) {
    && SectionEnds(ps, |weights|) && |cfgs| == |ps|
    && (forall s :: 0 <= s < |cfgs| ==> cfgs[s] < NWCFG)
    && forall s: nat, k: nat :: InSection(ps, s, k) && k < |weights| ==> CodableAs(p, cfgs[s], weights[k])
  }

  ghost predicate CodableAs(p: Setup, cfg: nat, v: nat) {
    && cfg < NWCFG && v < 512
    && (ModeOf(cfg).Golomb? ==> v / Pow2(ModeOf(cfg).div) <= if ModeOf(cfg).trunc then 2 else 31)
    && (ModeOf(cfg).Uncompressed? ==> v < Pow2(p.UncompressedBits()))
  }

  /** w is a search of that problem with that result. */
  ghost predicate FoundFor(w: Searched, problem: Problem, cfgs: seq<nat>, ps: seq<nat>) {
    w.Valid() && w.p == problem && w.cfgs == cfgs && w.ps == ps
  }

  /** Searches parameters for the weights; every weight can be coded with what is found, at the least cost. */
  method PlanWeights(weights: seq<nat>, uncompressedBits: nat, ghost p: Setup, ghost onlyPalette: bool)
    returns (cfgs: seq<nat>, ps: seq<nat>, ghost w: Searched)
    requires AllCoded(p, onlyPalette, weights) && UncompressedPrice(p, onlyPalette, uncompressedBits)
    ensures WeightPlan(p, weights, cfgs, ps) && FoundFor(w, Problem(weights, false, uncompressedBits, []), cfgs, ps)
    ensures uncompressedBits != p.UncompressedBits() ==> forall s :: 0 <= s < |cfgs| && |weights| > 0 ==> cfgs[s] != 12
  {
    var problem := Problem(weights, false, uncompressedBits, []);
    var bits;
    ghost var a;
    cfgs, ps, bits, a := SearchGrcParams(problem);
    PlanFollows(problem, p, onlyPalette, cfgs, ps, a);
    w := Searched(problem, cfgs, ps, a, bits);
  }

  lemma PlanFollows(problem: Problem, p: Setup, onlyPalette: bool, cfgs: seq<nat>, ps: seq<nat>, a: seq<nat>)
    requires !problem.zrunMode && UncompressedPrice(p, onlyPalette, problem.uncompressedBits)
    requires AllCoded(p, onlyPalette, problem.vals) && |a| == |problem.vals| && SectionEnds(ps, |a|)
             && Describes(cfgs, ps, a)
    requires forall s :: 0 <= s < |cfgs| ==> cfgs[s] < NWCFG
    requires forall k :: 0 <= k < |a| ==> a[k] < NWCFG && CanCode(problem, a[k], problem.vals[k])
    requires problem.uncompressedBits == 100 ==> forall k :: 0 <= k < |a| ==> a[k] != 12
    ensures WeightPlan(p, problem.vals, cfgs, ps)
    ensures problem.uncompressedBits == 100 && |a| > 0 ==> forall s :: 0 <= s < |cfgs| ==> cfgs[s] != 12
  {
    forall s: nat, k: nat | InSection(ps, s, k) && k < |a| ensures CodableAs(p, cfgs[s], problem.vals[k]) {
      assert a[k] == cfgs[s];
      CodableFromSearch(problem, p, onlyPalette, cfgs[s], problem.vals[k]);
    }
    if problem.uncompressedBits == 100 && |a| > 0 {
      forall s | 0 <= s < |cfgs| ensures cfgs[s] != 12 {
        assert InSection(ps, s, ps[s] - 1);
        if s < |ps| - 1 {
          assert ps[s] < ps[|ps| - 1];
        }
        assert a[ps[s] - 1] == cfgs[s];
      }
    }
  }

  lemma CodableFromSearch(problem: Problem, p: Setup, onlyPalette: bool, cfg: nat, v: nat)
    requires !problem.zrunMode && UncompressedPrice(p, onlyPalette, problem.uncompressedBits)
    requires cfg < NWCFG && v < 512 && CanCode(problem, cfg, v)
    requires problem.uncompressedBits == 100 && !(onlyPalette || p.lut == []) ==> cfg != 12
    requires onlyPalette || p.lut == [] ==> v < Pow2(p.UncompressedBits())
    ensures CodableAs(p, cfg, v)
  {
  }

  /** The runs of the slice from pos to endpos: the first slice also has the run before its first weight. */
  function RunsOf(useZeroRuns: bool, runs: seq<nat>, pos: nat, endpos: nat, newPalette: bool): seq<nat> {
    var start := if newPalette then pos else pos + 1;
    if useZeroRuns && start <= endpos + 1 <= |runs| then runs[start..endpos + 1] else []
  }

  /** Where a slice of a section ends. */
  method SliceEnd(pos: nat, n: nat, wPos: seq<nat>, iW: nat, zPos: seq<nat>, iZ: nat) returns (endpos: nat)
    requires pos < n
    requires iW < |wPos| && pos < wPos[iW]
    requires iZ < |zPos| ==> pos < zPos[iZ]
    ensures pos < endpos <= n && endpos <= wPos[iW] && endpos - pos <= 32767
    ensures iZ < |zPos| ==> endpos <= zPos[iZ]
    ensures endpos == pos + 32767 || endpos == n || endpos == wPos[iW] || (iZ < |zPos| && endpos == zPos[iZ])
  {
    endpos := pos + 32767;
    if wPos[iW] < endpos {
      endpos := wPos[iW];
    }
    if iZ < |zPos| && zPos[iZ] < endpos {
      endpos := zPos[iZ];
    }
    if n < endpos {
      endpos := n;
    }
  }

  /** The slices of a section stand for the weights up to pos. */
  ghost predicate Sliced(ss: seq<Slice>, p: Setup, useZeroRuns: bool, weights: seq<nat>, runs: seq<nat>, pos: nat)
    requires |runs| == if useZeroRuns then |weights| + 1 else 0
    requires pos <= |weights|
  {
    && ValidSlices(ss)
    && (ss == [] <==> pos == 0)
    && (ss != [] ==> ss[0].newPalette)
    && (forall i :: 0 <= i < |ss| ==> ss[i].setup == p && ss[i].useZeroRuns == useZeroRuns && |ss[i].weights| <= 32767)
    && ExpandAll(ss) == if pos == 0 then []
       else Joined(p, useZeroRuns, weights[..pos], if useZeroRuns then runs[..pos + 1] else [])
  }

  lemma SlicedMore(ss: seq<Slice>, s: Slice, p: Setup, useZeroRuns: bool, weights: seq<nat>, runs: seq<nat>, pos: nat,
                   endpos: nat)
    requires |runs| == if useZeroRuns then |weights| + 1 else 0
    requires pos < endpos <= |weights| && Sliced(ss, p, useZeroRuns, weights, runs, pos)
    requires s.Valid() && s.setup == p && s.useZeroRuns == useZeroRuns && s.newPalette == (pos == 0)
             && endpos - pos <= 32767
    requires s.weights == weights[pos..endpos] && s.runs == RunsOf(useZeroRuns, runs, pos, endpos, s.newPalette)
    ensures Sliced(ss + [s], p, useZeroRuns, weights, runs, endpos)
  {
    SlicedShape(ss, s, p, useZeroRuns, weights, runs, pos, endpos);
    ExpandAllSnoc(ss, s);
    if pos == 0 {
      FirstExpands(s, p, useZeroRuns, weights, runs, endpos);
      assert ExpandAll(ss) + Expand(s) == Expand(s);
    } else {
      SlicedJoin(p, useZeroRuns, weights, runs, pos, endpos);
      NextExpands(s, p, useZeroRuns, weights, runs, pos, endpos);
    }
  }

  /** The first slice of a section stands for its first run too. */
  lemma FirstExpands(s: Slice, p: Setup, useZeroRuns: bool, weights: seq<nat>, runs: seq<nat>, endpos: nat)
    requires |runs| == if useZeroRuns then |weights| + 1 else 0
    requires 0 < endpos <= |weights| && s.Valid() && s.setup == p && s.useZeroRuns == useZeroRuns && s.newPalette
    requires s.weights == weights[0..endpos] && s.runs == RunsOf(useZeroRuns, runs, 0, endpos, true)
    ensures Expand(s) == Joined(p, useZeroRuns, weights[..endpos], if useZeroRuns then runs[..endpos + 1] else [])
  {
    assert weights[0..endpos] == weights[..endpos];
    if useZeroRuns {
      assert s.runs == runs[..endpos + 1];
    }
  }

  lemma NextExpands(s: Slice, p: Setup, useZeroRuns: bool, weights: seq<nat>, runs: seq<nat>, pos: nat, endpos: nat)
    requires |runs| == if useZeroRuns then |weights| + 1 else 0
    requires 0 < pos < endpos <= |weights| && s.Valid() && s.setup == p && s.useZeroRuns == useZeroRuns && !s.newPalette
    requires s.weights == weights[pos..endpos] && s.runs == RunsOf(useZeroRuns, runs, pos, endpos, false)
    ensures Expand(s) == Interleave(p, weights[pos..endpos], if useZeroRuns then runs[pos + 1..endpos + 1] else [])
  {
  }

  lemma SlicedShape(ss: seq<Slice>, s: Slice, p: Setup, useZeroRuns: bool, weights: seq<nat>, runs: seq<nat>,
                    pos: nat, endpos: nat)
    requires |runs| == if useZeroRuns then |weights| + 1 else 0
    requires pos < endpos <= |weights| && Sliced(ss, p, useZeroRuns, weights, runs, pos)
    requires s.Valid() && s.setup == p && s.useZeroRuns == useZeroRuns && s.newPalette == (pos == 0)
             && endpos - pos <= 32767
    requires s.weights == weights[pos..endpos]
    ensures var ss' := ss + [s];
            && ValidSlices(ss') && ss'[0].newPalette
            && forall i :: 0 <= i < |ss'| ==>
                 ss'[i].setup == p && ss'[i].useZeroRuns == useZeroRuns && |ss'[i].weights| <= 32767
  {
    var ss' := ss + [s];
    forall i | 0 < i < |ss'| ensures Continues(ss'[i - 1], ss'[i]) {
      if i < |ss| {
        assert Continues(ss[i - 1], ss[i]);
      }
    }
  }

  lemma SlicedJoin(p: Setup, useZeroRuns: bool, weights: seq<nat>, runs: seq<nat>, pos: nat, endpos: nat)
    requires |runs| == if useZeroRuns then |weights| + 1 else 0
    requires 0 < pos < endpos <= |weights|
    ensures var before := Joined(p, useZeroRuns, weights[..pos], if useZeroRuns then runs[..pos + 1] else []);
            var more := Interleave(p, weights[pos..endpos], if useZeroRuns then runs[pos + 1..endpos + 1] else []);
            before + more == Joined(p, useZeroRuns, weights[..endpos], if useZeroRuns then runs[..endpos + 1] else [])
  {
    assert weights[..endpos] == weights[..pos] + weights[pos..endpos];
    if useZeroRuns {
      var ra, rb := runs[..pos + 1][1..], runs[pos + 1..endpos + 1];
      InterleaveConcat(p, weights[..pos], ra, weights[pos..endpos], rb);
      assert runs[..endpos + 1][1..] == ra + rb;
      var z, a, b := Zeros(runs[0]), Interleave(p, weights[..pos], ra), Interleave(p, weights[pos..endpos], rb);
      assert (z + a) + b == z + (a + b);
    } else {
      InterleaveConcat(p, weights[..pos], [], weights[pos..endpos], []);
      var none: seq<nat> := [];
      assert none + none == none;
    }
  }

  /** The slice of a section from pos to endpos. */
  function SliceAt(p: Setup, useZeroRuns: bool, weights: seq<nat>, runs: seq<nat>, wCfg: nat, zCfg: nat,
                   pos: nat, endpos: nat): Slice
    requires pos < endpos <= |weights| && wCfg < NWCFG && zCfg < NZCFG
  {
    SliceOf(p, pos == 0, useZeroRuns, wCfg, zCfg, weights[pos..endpos],
            RunsOf(useZeroRuns, runs, pos, endpos, pos == 0))
  }

  lemma SliceIsValid(p: Setup, useZeroRuns: bool, weights: seq<nat>, runs: seq<nat>, pos: nat, endpos: nat,
                     cfgs: seq<nat>, ps: seq<nat>, iW: nat, zCfg: nat)
    requires p.Valid() && |runs| == if useZeroRuns then |weights| + 1 else 0
    requires WeightPlan(p, weights, cfgs, ps) && iW < |ps| && zCfg < NZCFG
    requires pos < endpos <= |weights| && endpos - pos <= 32767
    requires (iW > 0 ==> ps[iW - 1] <= pos) && endpos <= ps[iW]
    ensures SliceAt(p, useZeroRuns, weights, runs, cfgs[iW], zCfg, pos, endpos).Valid()
  {
    var s := SliceAt(p, useZeroRuns, weights, runs, cfgs[iW], zCfg, pos, endpos);
    forall i | 0 <= i < |s.weights| ensures s.weights[i] < 512 && s.CanCode(s.weights[i]) {
      assert InSection(ps, iW, pos + i);
      assert CodableAs(p, cfgs[iW], weights[pos + i]);
    }
    assert Z_GRC_PARAMS[zCfg] % 16 == zCfg;
  }

  /**
   * Encodes a section: its slices stand for exactly its weights. The codes of its weights take as many
   * bits as the search for them found least, without the switches; so do the codes of its runs, but
   * for runs that are written one configuration late.
   */
  method EncodeSection(bb: Writer, inbuf: seq<int>, p: Palette)
    returns (ghost ss: seq<Slice>, ghost w: Searched, ghost z: Searched)
    requires bb.Valid() && inbuf != [] && p.palsize <= |p.lut|
    requires CodesSection(inbuf, p.useZeroRuns, p.onlyZeros, p.onlyPalette, p.Setup(), p.invLut)
    modifies bb
    ensures bb.Valid() && bb.Written() == old(bb.Written()) + SlicesBits(ss)
    ensures ValidSlices(ss) && ss != [] && ss[0].newPalette && ExpandAll(ss) == inbuf
    ensures forall i :: 0 <= i < |ss| ==> 1 <= |ss[i].weights| <= 32767
    ensures |z.p.vals| == (if p.useZeroRuns then |w.p.vals| + 1 else 0)
    ensures inbuf == Joined(p.Setup(), p.useZeroRuns, w.p.vals, z.p.vals)
    ensures var price := if p.onlyPalette || p.palsize == 0 then p.Setup().UncompressedBits() else 100;
            w.p == Problem(w.p.vals, false, price, [])
    ensures p.useZeroRuns ==> z.p == Problem(z.p.vals, true, 0, w.ps)
    ensures w.Valid() && w.bits == AllWeightCodes(ss) + SwitchSum(w.p, w.a)
    ensures p.useZeroRuns ==> z.Valid() && IsAssignment(z.p, Lagged(z.a, z.ps))
                              && AllRunCodes(ss) == CodeSum(z.p, Lagged(z.a, z.ps))
  {
    var uncompressedBits := PriceUncompressed(p);
    var weights, runs := SplitSection(inbuf, p);
    ss, w, z := PutSearched(bb, p, weights, runs, uncompressedBits, p.Setup(), p.useZeroRuns);
  }

  /** What an uncompressed weight costs. */
  method PriceUncompressed(p: Palette) returns (uncompressedBits: nat)
    requires p.palsize <= |p.lut| && (p.onlyPalette ==> p.palsize > 0)
    ensures UncompressedPrice(p.Setup(), p.onlyPalette, uncompressedBits)
  {
    if p.onlyPalette {
      uncompressedBits := PaletteIndexBits(p.palsize);
    } else if p.palsize == 0 {
      uncompressedBits := p.palbits;
    } else {
      uncompressedBits := 100;
    }
  }

  /** Searches parameters for weights and runs, and writes their slices. */
  method PutSearched(bb: Writer, p: Palette, weights: seq<nat>, runs: seq<nat>, uncompressedBits: nat,
                     ghost setup: Setup, useZeroRuns: bool)
    returns (ghost ss: seq<Slice>, ghost w: Searched, ghost z: Searched)
    requires bb.Valid() && Holds(p, setup, useZeroRuns) && setup.Valid()
    requires weights != [] && |runs| == if useZeroRuns then |weights| + 1 else 0
    requires AllCoded(setup, p.onlyPalette, weights) && UncompressedPrice(setup, p.onlyPalette, uncompressedBits)
    modifies bb
    ensures bb.Valid() && bb.Written() == old(bb.Written()) + SlicesBits(ss)
    ensures ValidSlices(ss) && ss != [] && ss[0].newPalette
            && ExpandAll(ss) == Joined(setup, useZeroRuns, weights, runs)
    ensures forall i :: 0 <= i < |ss| ==> 1 <= |ss[i].weights| <= 32767
    ensures w.p == Problem(weights, false, uncompressedBits, []) && z.p.vals == runs
    ensures useZeroRuns ==> z.p == Problem(runs, true, 0, w.ps)
    ensures w.Valid() && w.bits == AllWeightCodes(ss) + SwitchSum(w.p, w.a)
    ensures useZeroRuns ==> z.Valid() && IsAssignment(z.p, Lagged(z.a, z.ps))
                            && AllRunCodes(ss) == CodeSum(z.p, Lagged(z.a, z.ps))
  {
    var wCfgs, wPos;
    wCfgs, wPos, w := PlanWeights(weights, uncompressedBits, setup, p.onlyPalette);
    var zCfgs: seq<nat>, zPos: seq<nat>;
    zCfgs, zPos, z := PlanRuns(useZeroRuns, runs, wPos);
    ss := PutSlices(bb, p, weights, runs, uncompressedBits, wCfgs, wPos, zCfgs, zPos, setup, useZeroRuns, w, z);
    WholeSection(ss, setup, useZeroRuns, weights, runs);
    WholeSectionPaid(ss, useZeroRuns, w, z);
  }

  /** Searches parameters for the runs, if there are any. */
  method PlanRuns(useZeroRuns: bool, runs: seq<nat>, wPos: seq<nat>)
    returns (cfgs: seq<nat>, ps: seq<nat>, ghost z: Searched)
    requires Increasing(wPos) && (!useZeroRuns ==> runs == [])
    ensures if useZeroRuns then FoundFor(z, Problem(runs, true, 0, wPos), cfgs, ps)
            else cfgs == ps == [] && z.p.vals == []
  {
    cfgs, ps := [], [];
    z := Searched(Problem([], true, 0, []), [], [], [], 0);
    if useZeroRuns {
      var bits;
      ghost var a;
      cfgs, ps, bits, a := SearchGrcParams(Problem(runs, true, 0, wPos));
      z := Searched(Problem(runs, true, 0, wPos), cfgs, ps, a, bits);
    }
  }

  lemma WholeSection(ss: seq<Slice>, p: Setup, useZeroRuns: bool, weights: seq<nat>, runs: seq<nat>)
    requires |runs| == (if useZeroRuns then |weights| + 1 else 0) && weights != []
    requires Sliced(ss, p, useZeroRuns, weights, runs, |weights|)
    ensures ValidSlices(ss) && ss != [] && ss[0].newPalette && ExpandAll(ss) == Joined(p, useZeroRuns, weights, runs)
    ensures forall i :: 0 <= i < |ss| ==> 1 <= |ss[i].weights| <= 32767
  {
    assert weights[..|weights|] == weights;
    if useZeroRuns {
      assert runs[..|weights| + 1] == runs;
    }
  }

  lemma WholeSectionPaid(ss: seq<Slice>, useZeroRuns: bool, w: Searched, z: Searched)
    requires Paid(ss, useZeroRuns, w, z, |w.a|) && w.a != []
    ensures w.Valid() && w.bits == AllWeightCodes(ss) + SwitchSum(w.p, w.a)
    ensures useZeroRuns ==> z.Valid() && IsAssignment(z.p, Lagged(z.a, z.ps))
                            && AllRunCodes(ss) == CodeSum(z.p, Lagged(z.a, z.ps))
  {
    assert Look(0);
    assert w.a[..|w.a|] == w.a;
    CostSplits(w.p, w.a);
    if useZeroRuns {
      assert Lagged(z.a, z.ps)[..|w.a| + 1] == Lagged(z.a, z.ps);
    }
  }

  /** Writes the slice from pos to endpos. */
  method PutSlice(bb: Writer, p: Palette, weights: seq<nat>, runs: seq<nat>, uncompressedBits: nat,
                  wCfg: nat, zCfg: nat, pos: nat, endpos: nat, ghost ss: seq<Slice>, ghost before: seq<bool>)
    returns (ghost ss': seq<Slice>)
    requires bb.Valid() && p.palsize <= |p.lut| && wCfg < NWCFG && zCfg < NZCFG
    requires |runs| == if p.useZeroRuns then |weights| + 1 else 0
    requires pos < endpos <= |weights| && endpos - pos <= 32767
    requires SliceAt(p.Setup(), p.useZeroRuns, weights, runs, wCfg, zCfg, pos, endpos).Valid()
    requires uncompressedBits == p.Setup().UncompressedBits() || wCfg != 12
    requires Sliced(ss, p.Setup(), p.useZeroRuns, weights, runs, pos) && bb.Written() == before + SlicesBits(ss)
    modifies bb
    ensures bb.Valid() && Sliced(ss', p.Setup(), p.useZeroRuns, weights, runs, endpos)
    ensures bb.Written() == before + SlicesBits(ss')
    ensures ss' == ss + [SliceAt(old(p.Setup()), old(p.useZeroRuns), weights, runs, wCfg, zCfg, pos, endpos)]
  {
    var zValue := RunsOf(p.useZeroRuns, runs, pos, endpos, pos == 0);
    ghost var s := SliceAt(p.Setup(), p.useZeroRuns, weights, runs, wCfg, zCfg, pos, endpos);
    EncodeSlice(bb, weights[pos..endpos], zValue, p, pos == 0, uncompressedBits, wCfg, zCfg, s);
    SlicedMore(ss, s, p.Setup(), p.useZeroRuns, weights, runs, pos, endpos);
    SlicesBitsSnoc(ss, s);
    ss' := ss + [s];
    AppendAssociates(before, SlicesBits(ss), SliceBits(s));
  }

  lemma NotPastEnd(ps: seq<nat>, i: nat, pos: nat, n: nat)
    requires SectionEnds(ps, n) && StandsIn(ps, i, pos) && pos < n
    ensures i < |ps|
  {
  }

  /** Moves to the next section when a slice ends with the current one. */
  method NextSection(ps: seq<nat>, i0: nat, ghost pos: nat, endpos: nat) returns (i: nat)
    requires Increasing(ps) && StandsIn(ps, i0, pos) && pos < endpos && (i0 < |ps| ==> endpos <= ps[i0])
    ensures StandsIn(ps, i, endpos)
  {
    i := i0;
    if i < |ps| && ps[i] == endpos {
      i := i + 1;
    }
  }

  /** What the search has found for a section, as far as the slices need it. */
  ghost predicate Planned(p: Setup, useZeroRuns: bool, weights: seq<nat>, runs: seq<nat>, uncompressedBits: nat,
                          wCfgs: seq<nat>, wPos: seq<nat>, zCfgs: seq<nat>, zPos: seq<nat>) {
    && p.Valid() && weights != [] && |runs| == (if useZeroRuns then |weights| + 1 else 0)
    && WeightPlan(p, weights, wCfgs, wPos)
    && (uncompressedBits != p.UncompressedBits() ==> forall s :: 0 <= s < |wCfgs| ==> wCfgs[s] != 12)
    && |zCfgs| == |zPos| && (forall s :: 0 <= s < |zCfgs| ==> zCfgs[s] < NZCFG)
    && (if useZeroRuns then SectionEnds(zPos, |weights| + 1) else zPos == [])
  }

  /** The searches that have found it. */
  ghost predicate Searches(w: Searched, z: Searched, useZeroRuns: bool, weights: seq<nat>, runs: seq<nat>,
                           uncompressedBits: nat, wCfgs: seq<nat>, wPos: seq<nat>, zCfgs: seq<nat>, zPos: seq<nat>) {
    forall n: int :: Look(n) ==>
      FoundFor(w, Problem(weights, false, uncompressedBits, []), wCfgs, wPos)
      && (useZeroRuns ==> FoundFor(z, Problem(runs, true, 0, wPos), zCfgs, zPos))
  }

  lemma SearchesPaid(w: Searched, z: Searched, useZeroRuns: bool, weights: seq<nat>, runs: seq<nat>,
                     uncompressedBits: nat, wCfgs: seq<nat>, wPos: seq<nat>, zCfgs: seq<nat>, zPos: seq<nat>)
    requires Searches(w, z, useZeroRuns, weights, runs, uncompressedBits, wCfgs, wPos, zCfgs, zPos)
    requires useZeroRuns ==> |runs| == |weights| + 1
    ensures Paid([], useZeroRuns, w, z, 0)
  {
    assert Look(0);
    NothingPaid(useZeroRuns, w, z);
  }

  lemma NextSlicePaid(ss: seq<Slice>, setup: Setup, useZeroRuns: bool, weights: seq<nat>, runs: seq<nat>,
                      uncompressedBits: nat, wCfgs: seq<nat>, wPos: seq<nat>, zCfgs: seq<nat>, zPos: seq<nat>,
                      pos: nat, endpos: nat, iW: nat, iZ: nat, zCfg: nat, w: Searched, z: Searched)
    requires Planned(setup, useZeroRuns, weights, runs, uncompressedBits, wCfgs, wPos, zCfgs, zPos)
    requires Searches(w, z, useZeroRuns, weights, runs, uncompressedBits, wCfgs, wPos, zCfgs, zPos)
    requires StandsIn(wPos, iW, pos) && iW < |wPos| && pos < endpos <= wPos[iW] && endpos <= |weights|
    requires useZeroRuns ==> StandsIn(zPos, iZ, pos) && iZ < |zPos| && endpos <= zPos[iZ] && zCfg == zCfgs[iZ]
    requires zCfg < NZCFG && SliceAt(setup, useZeroRuns, weights, runs, wCfgs[iW], zCfg, pos, endpos).Valid()
    requires Paid(ss, useZeroRuns, w, z, pos)
    ensures Paid(ss + [SliceAt(setup, useZeroRuns, weights, runs, wCfgs[iW], zCfg, pos, endpos)], useZeroRuns, w, z,
                 endpos)
  {
    var s := SliceAt(setup, useZeroRuns, weights, runs, wCfgs[iW], zCfg, pos, endpos);
    assert Look(0);
    NextPaid(ss, s, w, z, pos, endpos, iW, iZ);
  }

  /** The palette holds the setup of the section. */
  ghost predicate Holds(p: Palette, setup: Setup, useZeroRuns: bool)
    reads p
  {
    p.palsize <= |p.lut| && p.Setup() == setup && p.useZeroRuns == useZeroRuns
  }

  /** Writes the next slice: up to the next change of configuration, at most 32767 weights. */
  method NextSlice(bb: Writer, p: Palette, weights: seq<nat>, runs: seq<nat>, uncompressedBits: nat,
                   wCfgs: seq<nat>, wPos: seq<nat>, zCfgs: seq<nat>, zPos: seq<nat>,
                   pos: nat, iW: nat, iZ: nat, ghost ss: seq<Slice>, ghost before: seq<bool>, ghost setup: Setup,
                   useZeroRuns: bool, ghost w: Searched, ghost z: Searched)
    returns (endpos: nat, iW': nat, iZ': nat, ghost ss': seq<Slice>)
    requires bb.Valid() && Holds(p, setup, useZeroRuns) && pos < |weights|
    requires Planned(setup, useZeroRuns, weights, runs, uncompressedBits, wCfgs, wPos, zCfgs, zPos)
    requires Searches(w, z, useZeroRuns, weights, runs, uncompressedBits, wCfgs, wPos, zCfgs, zPos)
    requires StandsIn(wPos, iW, pos) && StandsIn(zPos, iZ, pos)
    requires Sliced(ss, setup, useZeroRuns, weights, runs, pos) && bb.Written() == before + SlicesBits(ss)
    requires Paid(ss, useZeroRuns, w, z, pos)
    modifies bb
    ensures pos < endpos <= |weights| && StandsIn(wPos, iW', endpos) && StandsIn(zPos, iZ', endpos)
    ensures bb.Valid() && bb.Written() == before + SlicesBits(ss')
    ensures Sliced(ss', setup, useZeroRuns, weights, runs, endpos) && Paid(ss', useZeroRuns, w, z, endpos)
  {
    NotPastEnd(wPos, iW, pos, |weights|);
    if useZeroRuns {
      NotPastEnd(zPos, iZ, pos, |weights| + 1);
    }
    endpos := SliceEnd(pos, |weights|, wPos, iW, zPos, iZ);
    var zCfg := if useZeroRuns then zCfgs[iZ] else 0;
    SliceIsValid(setup, useZeroRuns, weights, runs, pos, endpos, wCfgs, wPos, iW, zCfg);
    iW' := NextSection(wPos, iW, pos, endpos);
    iZ' := NextSection(zPos, iZ, pos, endpos);
    ss' := PutSlice(bb, p, weights, runs, uncompressedBits, wCfgs[iW], zCfg, pos, endpos, ss, before);
    NextSlicePaid(ss, setup, useZeroRuns, weights, runs, uncompressedBits, wCfgs, wPos, zCfgs, zPos, pos, endpos, iW,
                  iZ, zCfg, w, z);
  }

  /** Writes the slices of a section. */
  method PutSlices(bb: Writer, p: Palette, weights: seq<nat>, runs: seq<nat>, uncompressedBits: nat,
                   wCfgs: seq<nat>, wPos: seq<nat>, zCfgs: seq<nat>, zPos: seq<nat>, ghost setup: Setup,
                   useZeroRuns: bool, ghost w: Searched, ghost z: Searched)
    returns (ghost ss: seq<Slice>)
    requires bb.Valid() && Holds(p, setup, useZeroRuns)
    requires Planned(setup, useZeroRuns, weights, runs, uncompressedBits, wCfgs, wPos, zCfgs, zPos)
    requires Searches(w, z, useZeroRuns, weights, runs, uncompressedBits, wCfgs, wPos, zCfgs, zPos)
    modifies bb
    ensures bb.Valid() && bb.Written() == old(bb.Written()) + SlicesBits(ss)
    ensures Sliced(ss, setup, useZeroRuns, weights, runs, |weights|) && Paid(ss, useZeroRuns, w, z, |weights|)
  {
    ghost var before := bb.Written();
    var pos: nat, iW: nat, iZ: nat := 0, 0, 0;
    ss := [];
    assert before + SlicesBits(ss) == before;
    SearchesPaid(w, z, useZeroRuns, weights, runs, uncompressedBits, wCfgs, wPos, zCfgs, zPos);
    // there is at least one weight, so the first slice is not empty
    while pos < |weights|
      invariant pos <= |weights| && StandsIn(wPos, iW, pos) && StandsIn(zPos, iZ, pos)
      invariant bb.Valid() && bb.Written() == before + SlicesBits(ss) && Holds(p, setup, useZeroRuns)
      invariant Sliced(ss, setup, useZeroRuns, weights, runs, pos) && Paid(ss, useZeroRuns, w, z, pos)
      decreases |weights| - pos
    {
      pos, iW, iZ, ss := NextSlice(bb, p, weights, runs, uncompressedBits, wCfgs, wPos, zCfgs, zPos, pos, iW, iZ, ss,
                                   before, setup, useZeroRuns, w, z);
    }
    assert pos == |weights|;
  }
}
